/** The price rules an import writes to: compare-and-swap replacements and insertions against the index that keeps live
    rules of one identity apart, in batches and all or none. */
module PriceRules {
  import opened TextOrder
  import opened Wrappers

  const WRITE_BATCH: nat := 50

  // What makes two rules rivals: provider, model, service tier and least number of input tokens.
  datatype Identity = Identity(provider: string, model: string, tier: string, minimum: int)

  datatype Rule = Rule(identity: Identity, revision: int, content: string, enabled: bool, deleted: bool)

  // A row of a preview: what it would write, and the rule it would replace as the preview saw it; None
  // creates one.
  datatype Row = Row(applicable: bool, overwrites: bool, identity: Identity, existing: Option<(string, Rule)>, content: string, enabled: bool)

  // -- The unique index --------------------------------------------------------------------

  predicate Live(rule: Rule) { rule.enabled && !rule.deleted }

  predicate Taken(rules: map<string, Rule>, identity: Identity) {
    exists id :: id in rules && Live(rules[id]) && rules[id].identity == identity
  }

  predicate NoTwins(rules: map<string, Rule>) {
    forall a, b :: a in rules && b in rules && a != b && Live(rules[a]) && Live(rules[b]) ==> rules[a].identity != rules[b].identity
  }

  lemma NewRule(rules: map<string, Rule>, id: string, rule: Rule)
    requires NoTwins(rules) && id !in rules && (Live(rule) ==> !Taken(rules, rule.identity))
    ensures NoTwins(rules[id := rule])
  {
  }

  // A rule with no rival but itself.
  lemma ChangedRule(rules: map<string, Rule>, id: string, rule: Rule)
    requires NoTwins(rules) && id in rules && (Live(rule) ==> !Taken(rules - {id}, rule.identity))
    ensures NoTwins(rules[id := rule])
  {
    forall other | other in rules && other != id && Live(rules[other]) && Live(rule) ensures rules[other].identity != rule.identity {
      assert other in rules - {id} && (rules - {id})[other] == rules[other];
    }
  }

  lemma KeepsIdentity(rules: map<string, Rule>, id: string, rule: Rule)
    requires NoTwins(rules) && id in rules && rule.identity == rules[id].identity && (Live(rule) ==> Live(rules[id]))
    ensures NoTwins(rules[id := rule])
  {
  }

  // -- Rules as a preview saw them -----------------------------------------------------------

  // The rule a row replaces is still at the revision the preview saw.
  predicate Current(rules: map<string, Rule>, row: Row)
    requires row.existing.Some?
  {
    var id := row.existing.value.0;
    id in rules && !rules[id].deleted && rules[id].revision == row.existing.value.1.revision
  }

  // Every change since the preview has raised the revision or deleted the rule; and the row leaves
  // the rule as enabled as the preview saw it.
  predicate Seen(rules: map<string, Rule>, row: Row)
    requires row.existing.Some?
  {
    var (id, seen) := row.existing.value;
    && id in rules && !seen.deleted && row.enabled == seen.enabled
    && (rules[id].revision > seen.revision || rules[id] == seen || rules[id] == seen.(deleted := true))
  }

  // So a rule that is current is the very rule the preview saw.
  lemma CurrentIsSeen(rules: map<string, Rule>, row: Row)
    requires row.existing.Some? && Seen(rules, row)
    ensures Current(rules, row) <==> rules[row.existing.value.0] == row.existing.value.1
  {
  }

  ghost predicate AllSeen(rules: map<string, Rule>, rows: seq<Row>) {
    forall row :: row in rows && row.existing.Some? ==> Seen(rules, row)
  }

  // -- The rows of a selection ---------------------------------------------------------------

  // The rows that create rules, and those that replace them, each in order.
  function Creates(rows: seq<Row>): (creates: seq<Row>)
    ensures forall row :: row in creates <==> row in rows && row.existing.None?
    ensures forall i :: 0 <= i < |creates| ==> creates[i].existing.None?
  {
    if rows == [] then []
    else
      assert rows == rows[..|rows| - 1] + [rows[|rows| - 1]];
      Creates(rows[..|rows| - 1]) + (if rows[|rows| - 1].existing.None? then [rows[|rows| - 1]] else [])
  }

  function Updates(rows: seq<Row>): (updates: seq<Row>)
    ensures forall row :: row in updates <==> row in rows && row.existing.Some?
    ensures forall i :: 0 <= i < |updates| ==> updates[i].existing.Some?
  {
    if rows == [] then []
    else
      assert rows == rows[..|rows| - 1] + [rows[|rows| - 1]];
      Updates(rows[..|rows| - 1]) + (if rows[|rows| - 1].existing.Some? then [rows[|rows| - 1]] else [])
  }

  // The identifiers of the rules rows replace.
  function Targets(rows: seq<Row>): (ids: seq<string>)
    requires forall i :: 0 <= i < |rows| ==> rows[i].existing.Some?
    ensures |ids| == |rows| && forall i :: 0 <= i < |rows| ==> ids[i] == rows[i].existing.value.0
  {
    seq(|rows|, i requires 0 <= i < |rows| => rows[i].existing.value.0)
  }

  predicate DistinctTargets(rows: seq<Row>) {
    forall i, j :: 0 <= i < j < |rows| && rows[i].existing.Some? && rows[j].existing.Some?
        ==> rows[i].existing.value.0 != rows[j].existing.value.0
  }

  lemma {:induction false} TargetsDistinct(rows: seq<Row>)
    requires DistinctTargets(rows)
    ensures Distinct(Targets(Updates(rows)))
  {
    if rows != [] {
      var before, last := rows[..|rows| - 1], rows[|rows| - 1];
      TargetsDistinct(before);
      if last.existing.Some? {
        forall i | 0 <= i < |Updates(before)| ensures Targets(Updates(before))[i] != last.existing.value.0 {
          assert Updates(before)[i] in before;
          var k :| 0 <= k < |before| && before[k] == Updates(before)[i];
          assert rows[k] == before[k];
        }
        assert Targets(Updates(rows)) == Targets(Updates(before)) + [last.existing.value.0];
      } else {
        assert Updates(rows) == Updates(before);
      }
    }
  }

  // -- Writing rows --------------------------------------------------------------------------

  // What a row writes: a new rule, or the next revision of the one the preview saw.
  function Content(row: Row): Rule {
    match row.existing
    case None => Rule(row.identity, 1, row.content, row.enabled, false)
    case Some((_, seen)) => seen.(revision := seen.revision + 1, content := row.content, enabled := row.enabled)
  }

  // The rules with some rows written.
  function Put(rules: map<string, Rule>, rows: seq<Row>, ids: seq<string>): map<string, Rule>
    requires |ids| == |rows|
  {
    if rows == [] then rules else Put(rules, rows[..|rows| - 1], ids[..|ids| - 1])[ids[|ids| - 1] := Content(rows[|rows| - 1])]
  }

  lemma {:induction false} PutHolds(rules: map<string, Rule>, rows: seq<Row>, ids: seq<string>)
    requires |ids| == |rows| && Distinct(ids)
    ensures forall i :: 0 <= i < |rows| ==> ids[i] in Put(rules, rows, ids) && Put(rules, rows, ids)[ids[i]] == Content(rows[i])
    ensures forall id ::
        id !in ids
        ==> (id in Put(rules, rows, ids) <==> id in rules) && (id in rules ==> Put(rules, rows, ids)[id] == rules[id])
  {
    if rows != [] {
      var last := |rows| - 1;
      PutHolds(rules, rows[..last], ids[..last]);
      forall i | 0 <= i < |rows|
        ensures ids[i] in Put(rules, rows, ids) && Put(rules, rows, ids)[ids[i]] == Content(rows[i])
      {
        if i < last { assert ids[..last][i] == ids[i] && rows[..last][i] == rows[i] && ids[i] != ids[last]; }
      }
    }
  }

  lemma PutNext(rules: map<string, Rule>, rows: seq<Row>, ids: seq<string>, i: nat)
    requires |ids| == |rows| && i < |rows|
    ensures Put(rules, rows[..i + 1], ids[..i + 1]) == Put(rules, rows[..i], ids[..i])[ids[i] := Content(rows[i])]
  {
    assert rows[..i + 1][..i] == rows[..i] && ids[..i + 1][..i] == ids[..i];
  }

  lemma {:induction false} PutTwice(rules: map<string, Rule>, rows: seq<Row>, ids: seq<string>, start: nat, end: nat)
    requires |ids| == |rows| && start <= end <= |rows|
    ensures Put(Put(rules, rows[..start], ids[..start]), rows[start..end], ids[start..end]) == Put(rules, rows[..end], ids[..end])
    decreases end
  {
    if start < end {
      PutTwice(rules, rows, ids, start, end - 1);
      PutNext(rules, rows, ids, end - 1);
      var n := end - 1 - start;
      assert rows[start..end][..n] == rows[start..end - 1] && ids[start..end][..n] == ids[start..end - 1];
      assert rows[start..end][n] == rows[end - 1] && ids[start..end][n] == ids[end - 1];
    }
  }

  // -- Insertions ----------------------------------------------------------------------------

  // No enabled row has the identity of a live rule or of another enabled row.
  ghost predicate Insertable(rules: map<string, Rule>, rows: seq<Row>) {
    && (forall i :: 0 <= i < |rows| && rows[i].enabled ==> !Taken(rules, rows[i].identity))
    && (forall i, j :: 0 <= i < j < |rows| && rows[i].enabled && rows[j].enabled ==> rows[i].identity != rows[j].identity)
  }

  // New identifiers for rows that create rules.
  ghost predicate Fresh(rules: map<string, Rule>, rows: seq<Row>, ids: seq<string>) {
    && |ids| == |rows| && Distinct(ids) && (forall i :: 0 <= i < |ids| ==> ids[i] !in rules)
    && forall i :: 0 <= i < |rows| ==> rows[i].existing.None?
  }

  // After some insertions the identities taken are those taken before and those inserted.
  lemma TakenAfter(rules: map<string, Rule>, rows: seq<Row>, ids: seq<string>, identity: Identity)
    requires Fresh(rules, rows, ids)
    ensures Taken(Put(rules, rows, ids), identity) <==>
            Taken(rules, identity) || exists i :: 0 <= i < |rows| && rows[i].enabled && rows[i].identity == identity
  {
    var after := Put(rules, rows, ids);
    PutHolds(rules, rows, ids);
    if id :| id in after && Live(after[id]) && after[id].identity == identity {
      if id in ids {
        var i :| 0 <= i < |ids| && ids[i] == id;
        assert rows[i].enabled && rows[i].identity == identity;
      }
    }
    if i :| 0 <= i < |rows| && rows[i].enabled && rows[i].identity == identity { assert Live(after[ids[i]]); }
    if id :| id in rules && Live(rules[id]) && rules[id].identity == identity { assert id !in ids && after[id] == rules[id]; }
  }

  lemma FreshPart(rules: map<string, Rule>, rows: seq<Row>, ids: seq<string>, start: nat, end: nat)
    requires Fresh(rules, rows, ids) && start <= end <= |rows|
    ensures Fresh(rules, rows[..start], ids[..start]) && Fresh(Put(rules, rows[..start], ids[..start]), rows[start..end], ids[start..end])
  {
    PutHolds(rules, rows[..start], ids[..start]);
  }

  // Inserting in two parts asks of the second part what it asks after the first.
  lemma InsertableParts(rules: map<string, Rule>, rows: seq<Row>, ids: seq<string>, start: nat, end: nat)
    requires Fresh(rules, rows, ids) && start <= end <= |rows|
    ensures Insertable(rules, rows[..end]) <==>
            Insertable(rules, rows[..start]) && Insertable(Put(rules, rows[..start], ids[..start]), rows[start..end])
  {
    var next, part := Put(rules, rows[..start], ids[..start]), rows[start..end];
    FreshPart(rules, rows, ids, start, end);
    forall k | start <= k < end
      ensures Taken(next, rows[k].identity) <==>
              Taken(rules, rows[k].identity) || exists i :: 0 <= i < start && rows[i].enabled && rows[i].identity == rows[k].identity
    {
      TakenAfter(rules, rows[..start], ids[..start], rows[k].identity);
      forall i | 0 <= i < start ensures rows[..start][i] == rows[i] {}
    }
    if Insertable(rules, rows[..start]) && Insertable(next, part) {
      forall i, j | 0 <= i < j < end && rows[i].enabled && rows[j].enabled ensures rows[i].identity != rows[j].identity {
        if j < start { assert rows[..start][i] == rows[i] && rows[..start][j] == rows[j]; }
        else { assert part[j - start] == rows[j]; if i >= start { assert part[i - start] == rows[i]; } }
      }
      forall i | 0 <= i < end && rows[i].enabled ensures !Taken(rules, rows[i].identity) {
        if i < start { assert rows[..start][i] == rows[i]; } else { assert part[i - start] == rows[i]; }
      }
    }
    if Insertable(rules, rows[..end]) {
      assert forall i :: 0 <= i < end ==> rows[..end][i] == rows[i];
    }
  }

  lemma InsertableNext(rules: map<string, Rule>, rows: seq<Row>, ids: seq<string>, i: nat)
    requires Fresh(rules, rows, ids) && i < |rows|
    ensures Insertable(rules, rows[..i + 1]) <==>
            Insertable(rules, rows[..i]) && (rows[i].enabled ==> !Taken(Put(rules, rows[..i], ids[..i]), rows[i].identity))
  {
    InsertableParts(rules, rows, ids, i, i + 1);
    assert rows[i..i + 1] == [rows[i]];
  }

  lemma InsertableUpto(rules: map<string, Rule>, rows: seq<Row>, i: nat)
    requires i <= |rows| && Insertable(rules, rows)
    ensures Insertable(rules, rows[..i])
  {
  }

  // One INSERT statement: it fails on the first row that the index refuses.
  method InsertBatch(rules: map<string, Rule>, rows: seq<Row>, ids: seq<string>) returns (r: Option<map<string, Rule>>)
    requires NoTwins(rules) && Fresh(rules, rows, ids)
    ensures r.Some? <==> Insertable(rules, rows)
    ensures r.Some? ==> r.value == Put(rules, rows, ids) && NoTwins(r.value)
  {
    var next := rules;
    var i := 0;
    while i < |rows|
      invariant 0 <= i <= |rows| && next == Put(rules, rows[..i], ids[..i]) && NoTwins(next) && Insertable(rules, rows[..i])
    {
      InsertableNext(rules, rows, ids, i);
      if rows[i].enabled && Taken(next, rows[i].identity) {
        if Insertable(rules, rows) { InsertableUpto(rules, rows, i + 1); }
        return None;
      }
      FreshPart(rules, rows, ids, i, i + 1);
      assert ids[i..i + 1][0] == ids[i];
      NewRule(next, ids[i], Content(rows[i]));
      PutNext(rules, rows, ids, i);
      next := next[ids[i] := Rule(rows[i].identity, 1, rows[i].content, rows[i].enabled, false)];
      i := i + 1;
    }
    assert rows[..|rows|] == rows && ids[..|ids|] == ids;
    r := Some(next);
  }

  // All creations, batch by batch.
  method InsertAll(rules: map<string, Rule>, rows: seq<Row>, ids: seq<string>) returns (r: Option<map<string, Rule>>)
    requires NoTwins(rules) && Fresh(rules, rows, ids)
    ensures r.Some? <==> Insertable(rules, rows)
    ensures r.Some? ==> r.value == Put(rules, rows, ids) && NoTwins(r.value)
  {
    var next := rules;
    var start := 0;
    while start < |rows|
      invariant 0 <= start <= |rows| && next == Put(rules, rows[..start], ids[..start]) && NoTwins(next)
      invariant Insertable(rules, rows[..start])
    {
      var end := if start + WRITE_BATCH < |rows| then start + WRITE_BATCH else |rows|;
      FreshPart(rules, rows, ids, start, end);
      InsertableParts(rules, rows, ids, start, end);
      var batch := InsertBatch(next, rows[start..end], ids[start..end]);
      if batch.None? {
        if Insertable(rules, rows) { InsertableUpto(rules, rows, end); }
        return None;
      }
      PutTwice(rules, rows, ids, start, end);
      next, start := batch.value, end;
    }
    assert rows[..|rows|] == rows && ids[..|ids|] == ids;
    r := Some(next);
  }

  // -- Replacements --------------------------------------------------------------------------

  // Rows that replace rules, each another one, against rules that the preview saw.
  ghost predicate Replaces(rules: map<string, Rule>, rows: seq<Row>, ids: seq<string>) {
    && |ids| == |rows| && Distinct(ids)
    && forall i :: 0 <= i < |rows| ==> rows[i].existing.Some? && ids[i] == rows[i].existing.value.0 && Seen(rules, rows[i])
  }

  // What a current rule becomes.
  lemma ContentOfCurrent(rules: map<string, Rule>, row: Row)
    requires row.existing.Some? && Seen(rules, row) && Current(rules, row)
    ensures var rule := rules[row.existing.value.0];
            && Content(row) == rule.(revision := rule.revision + 1, content := row.content, enabled := row.enabled)
            && Content(row).identity == rule.identity && (Live(Content(row)) <==> Live(rule))
  {
  }

  // One more replacement of a current rule takes no identity that was not taken.
  lemma UpdateNext(rules: map<string, Rule>, rows: seq<Row>, ids: seq<string>, i: nat)
    requires Replaces(rules, rows, ids) && i < |rows| && Current(rules, rows[i]) && NoTwins(Put(rules, rows[..i], ids[..i]))
    ensures Content(rows[i]) ==
            rules[ids[i]].(revision := rules[ids[i]].revision + 1, content := rows[i].content, enabled := rows[i].enabled)
    ensures var next := Put(rules, rows[..i + 1], ids[..i + 1]);
            next == Put(rules, rows[..i], ids[..i])[ids[i] := Content(rows[i])] && NoTwins(next)
  {
    var next := Put(rules, rows[..i], ids[..i]);
    PutNext(rules, rows, ids, i);
    PutHolds(rules, rows[..i], ids[..i]);
    assert ids[i] !in ids[..i] && next[ids[i]] == rules[ids[i]];
    ContentOfCurrent(rules, rows[i]);
    KeepsIdentity(next, ids[i], Content(rows[i]));
  }

  // One UPDATE statement for a batch: it replaces the rules that are current and counts them, and it
  // fails if the index refuses the result or not every row was counted.
  method UpdateBatch(rules: map<string, Rule>, rows: seq<Row>, ids: seq<string>) returns (r: Option<map<string, Rule>>)
    requires NoTwins(rules) && Replaces(rules, rows, ids)
    ensures r.Some? <==> forall i :: 0 <= i < |rows| ==> Current(rules, rows[i])
    ensures r.Some? ==> r.value == Put(rules, rows, ids) && NoTwins(r.value)
  {
    var affected := 0;
    var next := rules;
    var i := 0;
    while i < |rows|
      invariant 0 <= affected <= i <= |rows|
      invariant affected == i ==> next == Put(rules, rows[..i], ids[..i]) && NoTwins(next)
      invariant affected == i <==> forall k :: 0 <= k < i ==> Current(rules, rows[k])
    {
      if Current(rules, rows[i]) {
        if affected == i { UpdateNext(rules, rows, ids, i); }
        next := next[ids[i] := rules[ids[i]].(revision := rules[ids[i]].revision + 1, content := rows[i].content, enabled := rows[i].enabled)];
        affected := affected + 1;
      }
      i := i + 1;
    }
    assert rows[..|rows|] == rows && ids[..|ids|] == ids;
    r := if affected == |rows| && NoTwins(next) then Some(next) else None;
  }

  // Writing the first rows leaves the rules of the others alone.
  lemma ReplacesPart(rules: map<string, Rule>, rows: seq<Row>, ids: seq<string>, start: nat, end: nat)
    requires Replaces(rules, rows, ids) && start <= end <= |rows|
    ensures Replaces(Put(rules, rows[..start], ids[..start]), rows[start..end], ids[start..end])
    ensures forall k :: start <= k < end ==> (Current(Put(rules, rows[..start], ids[..start]), rows[k]) <==> Current(rules, rows[k]))
  {
    PutHolds(rules, rows[..start], ids[..start]);
    forall k | start <= k < end ensures ids[k] !in ids[..start] {}
  }

  // All replacements, batch by batch.
  method ReplaceAll(rules: map<string, Rule>, rows: seq<Row>, ids: seq<string>) returns (r: Option<map<string, Rule>>)
    requires NoTwins(rules) && Replaces(rules, rows, ids)
    ensures r.Some? <==> forall i :: 0 <= i < |rows| ==> Current(rules, rows[i])
    ensures r.Some? ==> r.value == Put(rules, rows, ids) && NoTwins(r.value)
  {
    var next := rules;
    var start := 0;
    while start < |rows|
      invariant 0 <= start <= |rows| && next == Put(rules, rows[..start], ids[..start]) && NoTwins(next)
      invariant forall k :: 0 <= k < start ==> Current(rules, rows[k])
    {
      var end := if start + WRITE_BATCH < |rows| then start + WRITE_BATCH else |rows|;
      ReplacesPart(rules, rows, ids, start, end);
      var batch := UpdateBatch(next, rows[start..end], ids[start..end]);
      assert forall k :: start <= k < end ==> rows[start..end][k - start] == rows[k];
      if batch.None? { return None; }
      PutTwice(rules, rows, ids, start, end);
      next, start := batch.value, end;
    }
    assert rows[..|rows|] == rows && ids[..|ids|] == ids;
    r := Some(next);
  }

  // -- A whole selection ---------------------------------------------------------------------

  // The rules to replace are current, and the index has room for the rules to create.
  ghost predicate Writable(rules: map<string, Rule>, rows: seq<Row>) {
    (forall row :: row in Updates(rows) ==> Current(rules, row)) && Insertable(rules, Creates(rows))
  }

  // Every selected row is written: the new ones created, and those that replace a rule on top of
  // exactly what the preview saw.
  ghost predicate AllWritten(before: map<string, Rule>, after: map<string, Rule>, rows: seq<Row>, newIds: seq<string>) {
    && |newIds| == |Creates(rows)| && Writable(before, rows)
    && after == Put(Put(before, Creates(rows), newIds), Updates(rows), Targets(Updates(rows)))
  }

  // Creating rules leaves those to replace alone.
  lemma ReplacesAfter(rules: map<string, Rule>, rows: seq<Row>, newIds: seq<string>)
    requires Fresh(rules, Creates(rows), newIds) && DistinctTargets(rows) && AllSeen(rules, rows)
    ensures var updates := Updates(rows);
            && Replaces(Put(rules, Creates(rows), newIds), updates, Targets(updates))
            && forall i :: 0 <= i < |updates| ==> (Current(Put(rules, Creates(rows), newIds), updates[i]) <==> Current(rules, updates[i]))
  {
    var updates := Updates(rows);
    PutHolds(rules, Creates(rows), newIds);
    TargetsDistinct(rows);
    forall i | 0 <= i < |updates| ensures Seen(rules, updates[i]) && updates[i].existing.value.0 !in newIds {
      assert updates[i] in updates;
    }
  }

  // What that means: a replaced rule is what the preview saw and gets the row's content and the next
  // revision, a created one is new and has no live rival, and nothing else changed.
  lemma WrittenMeans(before: map<string, Rule>, after: map<string, Rule>, rows: seq<Row>, newIds: seq<string>)
    requires AllWritten(before, after, rows, newIds) && Fresh(before, Creates(rows), newIds) && DistinctTargets(rows) && AllSeen(before, rows)
    ensures forall row :: row in Updates(rows) ==> Replaced(before, after, row)
    ensures forall i :: 0 <= i < |newIds| ==> var row := Creates(rows)[i];
      && newIds[i] !in before && newIds[i] in after && after[newIds[i]] == Rule(row.identity, 1, row.content, row.enabled, false)
      && (row.enabled ==> !Taken(before, row.identity))
    ensures forall id ::
        id !in newIds && id !in Targets(Updates(rows))
        ==> (id in after <==> id in before) && (id in before ==> after[id] == before[id])
  {
    var created, updates := Put(before, Creates(rows), newIds), Updates(rows);
    ReplacesAfter(before, rows, newIds);
    PutHolds(before, Creates(rows), newIds);
    PutHolds(created, updates, Targets(updates));
    forall row | row in updates ensures Replaced(before, after, row) {
      var i :| 0 <= i < |updates| && updates[i] == row;
      assert Targets(updates)[i] == row.existing.value.0;
      CurrentIsSeen(before, row);
    }
    forall i | 0 <= i < |newIds| ensures newIds[i] !in Targets(updates) {
      forall k | 0 <= k < |updates| ensures Targets(updates)[k] in before { assert Seen(before, updates[k]); }
    }
  }

  // The row's rule was what the preview saw and has the row's content and the next revision.
  predicate Replaced(before: map<string, Rule>, after: map<string, Rule>, row: Row)
    requires row.existing.Some?
  {
    var (id, seen) := row.existing.value;
    id in before && before[id] == seen && id in after && after[id] == seen.(revision := seen.revision + 1, content := row.content)
  }

  method Divide(rows: seq<Row>) returns (creates: seq<Row>, updates: seq<Row>)
    ensures creates == Creates(rows) && updates == Updates(rows)
  {
    creates, updates := [], [];
    var i := 0;
    while i < |rows|
      invariant 0 <= i <= |rows| && creates == Creates(rows[..i]) && updates == Updates(rows[..i])
    {
      assert rows[..i + 1][..i] == rows[..i] && creates + [] == creates && updates + [] == updates;
      if rows[i].existing.None? { creates := creates + [rows[i]]; } else { updates := updates + [rows[i]]; }
      i := i + 1;
    }
    assert rows[..|rows|] == rows;
  }

  // Creations, then replacements, on a copy: what is returned is only kept if everything succeeded.
  method WriteRows(rules: map<string, Rule>, rows: seq<Row>, newIds: seq<string>) returns (r: Option<map<string, Rule>>)
    requires NoTwins(rules) && Fresh(rules, Creates(rows), newIds) && DistinctTargets(rows) && AllSeen(rules, rows)
    ensures r.Some? <==> Writable(rules, rows)
    ensures r.Some? ==> AllWritten(rules, r.value, rows, newIds) && NoTwins(r.value)
  {
    var creates, updates := Divide(rows);
    var created := InsertAll(rules, creates, newIds);
    if created.None? { return None; }
    ReplacesAfter(rules, rows, newIds);
    r := ReplaceAll(created.value, updates, Targets(updates));
    if r.None? { assert forall i :: 0 <= i < |updates| ==> updates[i] in updates; }
  }
}
