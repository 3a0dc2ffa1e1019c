/** Applying a price import: its writes to the price rules are recorded under an idempotency key, among other changes to the
    rules and the cleanup of old previews and operations. A request commits at most once per key, even after its record is
    gone, and only replaces rules that are what its preview showed. */
module PriceImport {
  import opened PriceRules
  import opened TextOrder
  import opened Wrappers

  // Times are in seconds.
  const PREVIEW_TTL: int := 900
  const PREVIEW_RETENTION: int := 86_400
  const OPERATION_RETENTION: int := 2_592_000
  const MAX_SELECTED: nat := 10_000

  datatype Preview = Preview(revision: string, expiresAt: int, rows: map<string, Row>)

  // What a caller asks for; its texts are trimmed.
  datatype Input = Input(key: string, preview: string, revision: string, keys: seq<string>, confirmOverwrite: bool)

  // The request an input stands for has its keys in order.
  datatype Request = Request(preview: string, revision: string, selected: seq<string>, confirmOverwrite: bool)

  // The stored result of a request; its request hash stands for the request.
  datatype Operation = Operation(request: Request, createdAt: int)

  datatype ImportError = InvalidSelection | IdempotencyConflict | PreviewNotFound | PreviewStale | PreviewExpired | OverwriteRequired | RuleConflict

  datatype RuleError = Duplicate | NotFound

  // What is asked to change of a rule; None leaves it.
  datatype Patch = Patch(identity: Option<Identity>, enabled: Option<bool>, content: Option<string>)

  function Or<T>(value: Option<T>, other: T): T { if value.Some? then value.value else other }

  // The rule after a patch.
  function Patched(rule: Rule, patch: Patch): Rule {
    rule.(identity := Or(patch.identity, rule.identity), enabled := Or(patch.enabled, rule.enabled), content := Or(patch.content, rule.content),
          revision := rule.revision + 1)
  }

  // What is set is what the rule then has, all else stays, and the revision is the next one.
  lemma PatchedSets(rule: Rule, patch: Patch)
    ensures var after := Patched(rule, patch);
            && after.revision == rule.revision + 1 && after.deleted == rule.deleted
            && (forall identity :: patch.identity == Some(identity) ==> after.identity == identity)
            && (forall enabled :: patch.enabled == Some(enabled) ==> after.enabled == enabled)
            && (forall content :: patch.content == Some(content) ==> after.content == content)
            && (patch.identity == None ==> after.identity == rule.identity)
            && (patch.enabled == None ==> after.enabled == rule.enabled)
            && (patch.content == None ==> after.content == rule.content)
  {
  }

  // What the planning of a preview makes applicable: a replacement of the one rule of its identity, as enabled as
  // that is, or a creation where there is none; and no two rows of one identity.
  ghost predicate Planned(rules: map<string, Rule>, rows: map<string, Row>) {
    && (forall key :: key in rows && rows[key].applicable ==> PlannedRow(rules, rows[key]))
    && (forall a, b :: a in rows && b in rows && a != b && rows[a].applicable && rows[b].applicable ==> rows[a].identity != rows[b].identity)
  }

  predicate PlannedRow(rules: map<string, Rule>, row: Row) {
    match row.existing
    case None => row.enabled && forall id :: id in rules && !rules[id].deleted ==> rules[id].identity != row.identity
    case Some((id, seen)) => id in rules && rules[id] == seen && !seen.deleted && row.enabled == seen.enabled && row.identity == seen.identity
  }

  // Every rule a live row of a preview would replace is still what the preview saw, or has a later revision or was deleted.
  ghost predicate Honest(rules: map<string, Rule>, previews: map<string, Preview>) {
    forall id, key :: id in previews && key in previews[id].rows && Replacing(previews[id].rows[key]) ==> Seen(rules, previews[id].rows[key])
  }

  predicate Replacing(row: Row) { row.applicable && row.existing.Some? }

  // Rules are only ever changed under a new revision, or deleted.
  ghost predicate Ages(before: map<string, Rule>, after: map<string, Rule>) {
    forall id :: id in before ==>
      && id in after
      && (after[id] == before[id] || after[id] == before[id].(deleted := true) || after[id].revision > before[id].revision)
  }

  lemma StillHonest(before: map<string, Rule>, after: map<string, Rule>, previews: map<string, Preview>)
    requires Honest(before, previews) && Ages(before, after)
    ensures Honest(after, previews)
  {
  }

  // The rules after the selection of a request has been written, under new identifiers for the rows
  // that create rules.
  ghost predicate Committed(before: map<string, Rule>, after: map<string, Rule>, preview: Preview, request: Request, newIds: seq<string>) {
    exists rows :: Selects(preview, request, rows) && AllWritten(before, after, rows, newIds)
  }

  // A committed request is still on record under its key, or its record has been old enough to be
  // purged; and its preview did not outlive its commit by more than the preview's lifetime.
  ghost predicate Kept(previews: map<string, Preview>, operations: map<string, Operation>, known: set<string>,
      commits: map<(string, Request), int>, clock: int) {
    && (forall id :: id in previews ==> id in known && previews[id].expiresAt <= clock + PREVIEW_TTL)
    && (forall c :: c in commits ==>
          && commits[c] <= clock && c.1.preview in known
          && (c.1.preview in previews ==> previews[c.1.preview].expiresAt <= commits[c] + PREVIEW_TTL)
          && (OnRecord(operations, c, commits[c]) || clock > commits[c] + OPERATION_RETENTION))
    && (forall key :: key in operations ==>
          (key, operations[key].request) in commits && commits[(key, operations[key].request)] == operations[key].createdAt)
  }

  predicate OnRecord(operations: map<string, Operation>, c: (string, Request), at: int) {
    c.0 in operations && operations[c.0] == Operation(c.1, at)
  }

  // Had a request been committed under a key and its record purged, its preview would have expired.
  lemma NotCommitted(previews: map<string, Preview>, operations: map<string, Operation>, known: set<string>,
      commits: map<(string, Request), int>,
                     clock: int, key: string, request: Request, now: int)
    requires Kept(previews, operations, known, commits, clock) && now >= clock && key !in operations
    requires request.preview in previews && now <= previews[request.preview].expiresAt
    ensures (key, request) !in commits
  {
  }

  lemma CommitKept(previews: map<string, Preview>, operations: map<string, Operation>, known: set<string>,
      commits: map<(string, Request), int>,
                   clock: int, key: string, request: Request, now: int)
    requires Kept(previews, operations, known, commits, clock) && now >= clock && key !in operations && (key, request) !in commits
    requires request.preview in previews
    ensures Kept(previews, operations[key := Operation(request, now)], known, commits[(key, request) := now], now)
  {
    var after := operations[key := Operation(request, now)];
    forall c | c in commits ensures OnRecord(after, c, commits[c]) || now > commits[c] + OPERATION_RETENTION {
      if c.0 == key { assert !OnRecord(operations, c, commits[c]); }
    }
  }

  predicate Proper(input: Input) {
    && input.preview != "" && input.revision != "" && input.key != "" && 0 < |input.keys| <= MAX_SELECTED
    && Distinct(input.keys) && "" !in input.keys
  }

  ghost predicate Asks(input: Input, request: Request) {
    request == Request(input.preview, input.revision, request.selected, input.confirmOverwrite) && Orders(input.keys, request.selected)
  }

  // The order in which the rows are selected makes no difference to the request.
  lemma AsksOnce(a: Input, b: Input, request: Request, other: Request)
    requires Asks(a, request) && Asks(b, other) && b == a.(keys := b.keys) && forall key :: key in a.keys <==> key in b.keys
    ensures request == other
  {
    AscendingUnique(request.selected, other.selected);
  }

  // A request that may be tried: not made before under its key, for a live preview, with a proper selection.
  ghost predicate Presentable(previews: map<string, Preview>, operations: map<string, Operation>, key: string, request: Request, now: int) {
    && key !in operations && request.preview in previews
    && previews[request.preview].revision == request.revision && now <= previews[request.preview].expiresAt
    && exists rows :: Selects(previews[request.preview], request, rows)
  }

  // It commits if besides every rule it replaces is current and no rule it creates has a live rival.
  ghost predicate Committable(rules: map<string, Rule>, previews: map<string, Preview>, operations: map<string, Operation>, key: string,
      request: Request, now: int) {
    && Presentable(previews, operations, key, request, now)
    && forall rows :: Selects(previews[request.preview], request, rows) ==> Writable(rules, rows)
  }

  lemma SelectsOnce(preview: Preview, request: Request, rows: seq<Row>, other: seq<Row>)
    requires Selects(preview, request, rows) && Selects(preview, request, other)
    ensures rows == other
  {
  }

  // How many of the selected rows create a rule.
  function Creations(preview: Preview, selected: seq<string>): nat {
    if selected == [] then 0
    else
      var last := selected[|selected| - 1];
      Creations(preview, selected[..|selected| - 1]) + (if last in preview.rows && preview.rows[last].existing.None? then 1 else 0)
  }

  lemma {:induction false} CreationsCounted(preview: Preview, request: Request, rows: seq<Row>)
    requires Selects(preview, request, rows)
    ensures |Creates(rows)| == Creations(preview, request.selected)
    decreases |rows|
  {
    if rows != [] {
      CreationsCounted(preview, request.(selected := request.selected[..|rows| - 1]), rows[..|rows| - 1]);
    }
  }

  class Imports {
    var rules: map<string, Rule>
    var previews: map<string, Preview>
    var operations: map<string, Operation>           // by idempotency key
    ghost var clock: int                             // the latest transaction's time
    ghost var known: set<string>                     // every preview identifier there has been
    ghost var commits: map<(string, Request), int>   // when a request was committed under a key

    ghost predicate Valid()
      reads this
    {
      Kept(previews, operations, known, commits, clock) && NoTwins(rules) && Honest(rules, previews)
    }

    // -- Changes to the rules outside imports ------------------------------------------------

    method CreateRule(id: string, identity: Identity, content: string, enabled: bool) returns (error: Option<RuleError>)
      requires Valid() && id !in rules
      modifies this`rules
      ensures Valid()
      ensures error == if enabled && Taken(old(rules), identity) then Some(Duplicate) else None
      ensures rules == if error.Some? then old(rules) else old(rules)[id := Rule(identity, 1, content, enabled, false)]
    {
      if enabled && Taken(rules, identity) { return Some(Duplicate); }
      NewRule(rules, id, Rule(identity, 1, content, enabled, false));
      StillHonest(rules, rules[id := Rule(identity, 1, content, enabled, false)], previews);
      rules := rules[id := Rule(identity, 1, content, enabled, false)];
      error := None;
    }

    method UpdateRule(id: string, patch: Patch) returns (error: Option<RuleError>)
      requires Valid()
      modifies this`rules
      ensures Valid()
      ensures var before := old(rules);
              if id !in before || before[id].deleted then error == Some(NotFound) && rules == before
              else if patch == Patch(None, None, None) then error == None && rules == before
              else if Live(Patched(before[id], patch)) && Taken(before - {id}, Patched(before[id], patch).identity)
              then error == Some(Duplicate) && rules == before
              else error == None && rules == before[id := Patched(before[id], patch)]
    {
      if id !in rules || rules[id].deleted { return Some(NotFound); }
      if patch == Patch(None, None, None) { return None; }
      var rule := Patched(rules[id], patch);
      if Live(rule) && Taken(rules - {id}, rule.identity) { return Some(Duplicate); }
      ChangedRule(rules, id, rule);
      StillHonest(rules, rules[id := rule], previews);
      rules := rules[id := rule];
      error := None;
    }

    method DeleteRule(id: string) returns (error: Option<RuleError>)
      requires Valid()
      modifies this`rules
      ensures Valid()
      ensures error == if id in old(rules) && !old(rules)[id].deleted then None else Some(NotFound)
      ensures rules == if error.Some? then old(rules) else old(rules)[id := old(rules)[id].(deleted := true)]
    {
      if id !in rules || rules[id].deleted { return Some(NotFound); }
      KeepsIdentity(rules, id, rules[id].(deleted := true));
      StillHonest(rules, rules[id := rules[id].(deleted := true)], previews);
      rules := rules[id := rules[id].(deleted := true)];
      error := None;
    }

    // -- Imports -----------------------------------------------------------------------------

    // A preview is generated under a new identifier.
    method CreatePreview(id: string, revision: string, rows: map<string, Row>, now: int)
      requires Valid() && now >= clock && id !in known && Planned(rules, rows)
      modifies this`previews, this`known, this`clock
      ensures Valid() && previews == old(previews)[id := Preview(revision, now + PREVIEW_TTL, rows)]
    {
      clock := now;
      known := known + {id};
      previews := previews[id := Preview(revision, now + PREVIEW_TTL, rows)];
    }

    // cleanupBillingModelPriceImports.
    method Cleanup(now: int)
      requires Valid() && now >= clock
      modifies this`previews, this`operations, this`clock
      ensures Valid()
      ensures previews == map id | id in old(previews) && old(previews)[id].expiresAt >= now - PREVIEW_RETENTION :: old(previews)[id]
      ensures operations == map key | key in old(operations)
          && old(operations)[key].createdAt >= now - OPERATION_RETENTION :: old(operations)[key]
    {
      clock := now;
      previews := map id | id in previews && previews[id].expiresAt >= now - PREVIEW_RETENTION :: previews[id];
      operations := map key | key in operations && operations[key].createdAt >= now - OPERATION_RETENTION :: operations[key];
    }

    // What a request comes to before anything is written: an error, a replay (None), or the rows.
    method Check(key: string, request: Request, now: int) returns (r: Result<Option<seq<Row>>, ImportError>)
      requires Valid() && now >= clock
      ensures r == Ok(None) <==> key in operations && operations[key].request == request
      ensures r == Ok(None) ==> (key, request) in commits
      ensures r.Ok? && r.value.Some? <==> Presentable(previews, operations, key, request, now)
      ensures r.Ok? && r.value.Some? ==> (key, request) !in commits && Selects(previews[request.preview], request, r.value.value)
    {
      if key in operations {
        return if operations[key].request == request then Ok(None) else Err(IdempotencyConflict);
      }
      if request.preview !in previews { return Err(PreviewNotFound); }
      var preview := previews[request.preview];
      if preview.revision != request.revision { return Err(PreviewStale); }
      if now > preview.expiresAt { return Err(PreviewExpired); }
      NotCommitted(previews, operations, known, commits, clock, key, request, now);
      var selected := Select(preview, request);
      r := if selected.Err? then Err(selected.error) else Ok(Some(selected.value));
    }

    // ApplyBillingModelPriceImport; newIds names the rules that creating rows make.
    method Apply(input: Input, newIds: seq<string>, now: int) returns (r: Result<bool, ImportError>, ghost request: Request)
      requires Valid() && now >= clock
      requires forall asked :: Asks(input, asked) && asked.preview in previews ==> NewFor(rules, previews[asked.preview], asked, newIds)
      modifies this
      ensures Valid()
      ensures if Proper(input) then Asks(input, request) && Applied(input.key, request, newIds, now, r, old(Holds()), Holds())
              else r == Err(InvalidSelection) && Holds() == old(Holds())
    {
      request := Request(input.preview, input.revision, [], input.confirmOverwrite);
      if input.preview == "" || input.revision == "" || input.key == "" || input.keys == [] || |input.keys| > MAX_SELECTED {
        return Err(InvalidSelection), request;
      }
      var selected := SortDistinct(input.keys);
      if selected.None? { return Err(InvalidSelection), request; }
      var asked := Request(input.preview, input.revision, selected.value, input.confirmOverwrite);
      request := asked;
      r := ApplyRequest(input.key, asked, newIds, now);
    }

    ghost function Holds(): Held
      reads this
    {
      Held(rules, previews, operations, commits)
    }

    // The transaction. Answers true for a commit, false for a replay of one.
    method ApplyRequest(key: string, request: Request, newIds: seq<string>, now: int) returns (r: Result<bool, ImportError>)
      requires Valid() && now >= clock && (request.preview in previews ==> NewFor(rules, previews[request.preview], request, newIds))
      modifies this
      ensures Valid() && Applied(key, request, newIds, now, r, old(Holds()), Holds())
    {
      var checked := Check(key, request, now);
      ghost var before := clock;
      clock := now;
      if checked.Err? { return Err(checked.error); }
      if checked.value.None? { return Ok(false); }
      var rows := checked.value.value;
      SelectedNew(rules, previews, request, newIds, rows);
      CommittableRows(rules, previews, operations, key, request, now, rows);
      var written := WriteRows(rules, rows, newIds);
      if written.None? { return Err(RuleConflict); }
      WrittenAges(rules, written.value, rows, newIds);
      StillHonest(rules, written.value, previews);
      CommitKept(previews, operations, known, commits, before, key, request, now);
      rules := written.value;
      operations := operations[key := Operation(request, now)];
      commits := commits[(key, request) := now];
      r := Ok(true);
    }
  }

  datatype Held = Held(rules: map<string, Rule>, previews: map<string, Preview>, operations: map<string, Operation>,
                       commits: map<(string, Request), int>)

  // A request commits exactly if it is committable: the first time under its key, with every selected
  // row written and the operation on record. It is a replay exactly if it is on record, and a replay or an
  // error changes nothing.
  ghost predicate Applied(key: string, request: Request, newIds: seq<string>, now: int, r: Result<bool, ImportError>, before: Held, after: Held) {
    && (r == Ok(true) <==> Committable(before.rules, before.previews, before.operations, key, request, now))
    && (r == Ok(false) <==> key in before.operations && before.operations[key].request == request)
    && (r == Ok(false) ==> (key, request) in before.commits)
    && (r == Ok(true) ==>
          && (key, request) !in before.commits && after.commits == before.commits[(key, request) := now]
          && after.operations == before.operations[key := Operation(request, now)] && after.previews == before.previews
          && Committed(before.rules, after.rules, before.previews[request.preview], request, newIds))
    && (r != Ok(true) ==> after == before)
  }

  lemma CommittableRows(rules: map<string, Rule>, previews: map<string, Preview>, operations: map<string, Operation>, key: string,
      request: Request, now: int, rows: seq<Row>)
    requires Presentable(previews, operations, key, request, now) && Selects(previews[request.preview], request, rows)
    ensures Committable(rules, previews, operations, key, request, now) <==> Writable(rules, rows)
  {
    forall other | Selects(previews[request.preview], request, other) ensures other == rows {
      SelectsOnce(previews[request.preview], request, other, rows);
    }
  }

  // Identifiers for the rules a request creates: enough, distinct, and of no rule.
  ghost predicate NewFor(rules: map<string, Rule>, preview: Preview, request: Request, newIds: seq<string>) {
    Distinct(newIds) && |newIds| == Creations(preview, request.selected) && forall id :: id in newIds ==> id !in rules
  }

  lemma SelectedNew(rules: map<string, Rule>, previews: map<string, Preview>, request: Request, newIds: seq<string>, rows: seq<Row>)
    requires Honest(rules, previews) && request.preview in previews
    requires NewFor(rules, previews[request.preview], request, newIds) && Selects(previews[request.preview], request, rows)
    ensures Fresh(rules, Creates(rows), newIds) && AllSeen(rules, rows) && DistinctTargets(rows)
  {
    CreationsCounted(previews[request.preview], request, rows);
    forall row | row in rows && row.existing.Some? ensures Seen(rules, row) {
      var i :| 0 <= i < |rows| && rows[i] == row;
      assert request.selected[i] in previews[request.preview].rows && Replacing(row);
    }
  }

  // A commit changes rules only under new revisions.
  lemma WrittenAges(before: map<string, Rule>, after: map<string, Rule>, rows: seq<Row>, newIds: seq<string>)
    requires AllWritten(before, after, rows, newIds) && Fresh(before, Creates(rows), newIds) && DistinctTargets(rows) && AllSeen(before, rows)
    ensures Ages(before, after)
  {
    WrittenMeans(before, after, rows, newIds);
    forall id | id in before ensures id in after && (after[id] == before[id] || after[id].revision > before[id].revision) {
      if id in Targets(Updates(rows)) {
        var i :| 0 <= i < |Updates(rows)| && Targets(Updates(rows))[i] == id;
        assert Replaced(before, after, Updates(rows)[i]);
      }
    }
  }

  // A request commits, whatever it selects, as long as the rules are those its preview was planned on.
  lemma FreshCommits(rules: map<string, Rule>, previews: map<string, Preview>, operations: map<string, Operation>, key: string,
      request: Request, now: int)
    requires Presentable(previews, operations, key, request, now) && Planned(rules, previews[request.preview].rows) && Distinct(request.selected)
    ensures Committable(rules, previews, operations, key, request, now)
  {
    var preview := previews[request.preview];
    forall rows | Selects(preview, request, rows) ensures Writable(rules, rows) {
      forall row | row in rows ensures PlannedRow(rules, row) {
        var i :| 0 <= i < |rows| && rows[i] == row;
        assert request.selected[i] in preview.rows;
      }
      IdentitiesDistinct(rules, preview, request, rows);
    }
  }

  lemma {:induction false} IdentitiesDistinct(rules: map<string, Rule>, preview: Preview, request: Request, rows: seq<Row>)
    requires Selects(preview, request, rows) && Planned(rules, preview.rows) && Distinct(request.selected)
    ensures forall i, j :: 0 <= i < j < |Creates(rows)| ==> Creates(rows)[i].identity != Creates(rows)[j].identity
    decreases |rows|
  {
    if rows != [] {
      var n := |rows| - 1;
      var fewer := request.(selected := request.selected[..n]);
      IdentitiesDistinct(rules, preview, fewer, rows[..n]);
      if rows[n].existing.None? {
        forall i | 0 <= i < |Creates(rows[..n])| ensures Creates(rows[..n])[i].identity != rows[n].identity {
          assert Creates(rows[..n])[i] in rows[..n];
          var k :| 0 <= k < n && rows[k] == Creates(rows[..n])[i];
          assert request.selected[k] != request.selected[n];
        }
      }
    }
  }

  // The rows a request selects: each applicable, overwriting ones confirmed, no rule twice.
  ghost predicate Selects(preview: Preview, request: Request, rows: seq<Row>) {
    && |rows| == |request.selected|
    && (forall i ::
        0 <= i < |rows|
        ==> request.selected[i] in preview.rows && rows[i] == preview.rows[request.selected[i]] && rows[i].applicable
            && (rows[i].overwrites ==> request.confirmOverwrite))
    && DistinctTargets(rows)
  }

  method Select(preview: Preview, request: Request) returns (r: Result<seq<Row>, ImportError>)
    ensures r.Ok? <==> exists rows :: Selects(preview, request, rows)
    ensures r.Ok? ==> Selects(preview, request, r.value)
  {
    var rows: seq<Row> := [];
    var replaced: set<string> := {};
    var i := 0;
    while i < |request.selected|
      invariant 0 <= i <= |request.selected| && Selects(preview, request.(selected := request.selected[..i]), rows)
      invariant forall k :: 0 <= k < |rows| && rows[k].existing.Some? ==> rows[k].existing.value.0 in replaced
      invariant forall id :: id in replaced ==> exists k :: 0 <= k < |rows| && rows[k].existing.Some? && rows[k].existing.value.0 == id
    {
      ghost var before := rows;
      var key := request.selected[i];
      if key !in preview.rows || !preview.rows[key].applicable { return Err(InvalidSelection); }
      var row := preview.rows[key];
      if row.overwrites && !request.confirmOverwrite { return Err(OverwriteRequired); }
      if row.existing.Some? {
        if row.existing.value.0 in replaced {
          TwiceReplaced(preview, request, i, rows, row);
          return Err(RuleConflict);
        }
        replaced := replaced + {row.existing.value.0};
      }
      rows := rows + [row];
      assert rows[..i] == before && rows[i] == row;
      i := i + 1;
    }
    assert request.selected[..|request.selected|] == request.selected;
    r := Ok(rows);
  }

  // A row that replaces a rule that an earlier selected row replaces.
  lemma TwiceReplaced(preview: Preview, request: Request, i: nat, rows: seq<Row>, row: Row)
    requires i < |request.selected| && Selects(preview, request.(selected := request.selected[..i]), rows)
    requires request.selected[i] in preview.rows && preview.rows[request.selected[i]] == row && row.existing.Some?
    requires exists k :: 0 <= k < |rows| && rows[k].existing.Some? && rows[k].existing.value.0 == row.existing.value.0
    ensures !exists all :: Selects(preview, request, all)
  {
    var k :| 0 <= k < |rows| && rows[k].existing.Some? && rows[k].existing.value.0 == row.existing.value.0;
    assert request.selected[..i][k] == request.selected[k];
  }
}
