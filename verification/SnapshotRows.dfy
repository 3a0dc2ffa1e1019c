/** The rows of the paginated cursor store, the order in which expired cursors are visited, and what removing rows does to
    the number of rows that have expired. */
module SnapshotRows {
  import opened TableSums
  import opened TextOrder

  // A row of a child table: a detail with its place in the capture, an observed credential, the limiter
  // state of a credential, or a model of such a state.
  datatype Row =
    | ItemRow(ordinal: int, detail: Detail)
    | ObservedRow(credential: string)
    | StateRow(credential: string)
    | ModelRow(credential: string, model: string)

  datatype Detail = Detail(requestId: string, credential: string, model: string, kind: string, startedAt: int)

  datatype Header = Header(credential: string, model: string, schema: int, total: int, expiresAt: int)

  // The child tables, in the order in which they are emptied.
  datatype Child = Models | States | Observed | Items

  datatype Tables = Tables(headers: map<string, Header>, children: map<(Child, string), seq<Row>>) {
    function Rows(child: Child, cursor: string): seq<Row> {
      if (child, cursor) in children then children[(child, cursor)] else []
    }

    // All rows of a cursor.
    function Size(cursor: string): nat {
      (if cursor in headers then 1 else 0) + |Rows(Models, cursor)| + |Rows(States, cursor)| + |Rows(Observed, cursor)| + |Rows(Items, cursor)|
    }

    predicate Stale(cursor: string, now: int) { cursor in headers && headers[cursor].expiresAt <= now }

    // The cursors that have expired.
    function Expired(now: int): set<string> { set cursor | cursor in headers && headers[cursor].expiresAt <= now }

    // How many rows they have together.
    ghost function ExpiredRows(now: int): int {
      Sum(headers, (cursor: string, header: Header) => if header.expiresAt <= now then Size(cursor) else 0)
    }

    ghost predicate Childless(cursor: string) { forall child :: Rows(child, cursor) == [] }

    // a expires before b, or at the same time with the smaller cursor.
    predicate Before(a: string, b: string) {
      && a in headers && b in headers
      && (headers[a].expiresAt < headers[b].expiresAt || (headers[a].expiresAt == headers[b].expiresAt && Less(a, b)))
    }
  }

  // -- The order of cursors ----------------------------------------------------------------

  lemma BeforeTotal(t: Tables, a: string, b: string)
    requires a in t.headers && b in t.headers && a != b
    ensures t.Before(a, b) || t.Before(b, a)
  {
    LessTotal(a, b);
  }

  lemma BeforeTransitive(t: Tables, a: string, b: string, c: string)
    requires t.Before(a, b) && t.Before(b, c)
    ensures t.Before(a, c)
  {
    if t.headers[a].expiresAt == t.headers[c].expiresAt { LessTransitive(a, b, c); }
  }

  // -- Removing rows -----------------------------------------------------------------------

  // Only these cursors lost rows, and a header that went left no children.
  ghost predicate OnlyTouches(before: Tables, after: Tables, cursors: set<string>) {
    && (forall cursor, child :: cursor !in cursors ==> after.Rows(child, cursor) == before.Rows(child, cursor))
    && (forall cursor :: cursor in after.headers ==> cursor in before.headers && after.headers[cursor] == before.headers[cursor])
    && (forall cursor :: cursor in before.headers && cursor !in after.headers ==> cursor in cursors && after.Childless(cursor))
  }

  // One cursor lost this many rows, and it is gone if its header is.
  ghost predicate Shrunk(before: Tables, after: Tables, cursor: string, deleted: int) {
    && OnlyTouches(before, after, {cursor})
    && deleted == before.Size(cursor) - after.Size(cursor)
  }

  lemma HeadersShrink(before: Tables, after: Tables, cursor: string)
    requires OnlyTouches(before, after, {cursor})
    ensures after.headers == if cursor in after.headers then before.headers else before.headers - {cursor}
  {
  }

  // The expired rows are fewer by exactly the rows one expired cursor lost.
  lemma ShrunkRows(before: Tables, after: Tables, cursor: string, deleted: int, cut: int)
    requires Shrunk(before, after, cursor, deleted) && cursor in before.headers
    ensures after.ExpiredRows(cut) == before.ExpiredRows(cut) - (if before.Stale(cursor, cut) then deleted else 0)
  {
    var f := (c: string, header: Header) => if header.expiresAt <= cut then before.Size(c) else 0;
    var g := (c: string, header: Header) => if header.expiresAt <= cut then after.Size(c) else 0;
    var others := before.headers - {cursor};
    HeadersShrink(before, after, cursor);
    SumSplit(before.headers, cursor, f);
    forall c | c in others ensures f(c, others[c]) == g(c, others[c]) {
      assert c in after.headers;
    }
    SumSame(others, f, g);
    if cursor in after.headers {
      SumSplit(after.headers, cursor, g);
    } else {
      assert after.Childless(cursor);
    }
  }

  lemma RowsNatural(t: Tables, cut: int)
    ensures t.ExpiredRows(cut) >= 0
  {
    var f := (c: string, header: Header) => if header.expiresAt <= cut then t.Size(c) else 0;
    forall c | c in t.headers ensures f(c, t.headers[c]) >= 0 {
      assert t.Size(c) >= 0;
    }
    SumDelete(t.headers, {}, f);
  }

  // There are expired rows exactly if some cursor has expired.
  lemma RowsPositive(t: Tables, cut: int)
    ensures t.ExpiredRows(cut) >= 0 && (t.ExpiredRows(cut) > 0 <==> t.Expired(cut) != {})
  {
    var f := (c: string, header: Header) => if header.expiresAt <= cut then t.Size(c) else 0;
    RowsNatural(t, cut);
    if t.Expired(cut) == {} {
      forall c | c in t.headers ensures f(c, t.headers[c]) == 0 { assert c !in t.Expired(cut); }
      SumZero(t.headers, f);
    } else {
      var c :| c in t.Expired(cut);
      SumSplit(t.headers, c, f);
      SumDelete(t.headers - {c}, {}, f);
      assert t.headers - {c} - {} == t.headers - {c};
    }
  }
}
