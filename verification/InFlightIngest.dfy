/** Staging of multipart in-flight snapshots for one membership lifetime: the attempt row, the
    staged part rows and the visible snapshot row, and the transaction that handles one frame. */
module InFlightIngest {
  import opened Wrappers
  import opened InFlightFrames

  datatype AttemptState = Staging | Complete | Rejected | Overflow

  datatype Attempt = Attempt(highest: int, state: AttemptState, observedAt: int, barrier: int, partCount: int,
                             received: int, bytes: int, truncated: bool, groupCount: int)

  datatype PartKey = PartKey(revision: int, index: int)

  datatype Snapshot = Snapshot(revision: int, observedAt: int, barrier: int, truncated: bool, payload: Payload)

  // The rows of one (certificate fingerprint, connected_at) lifetime.
  datatype Rows = Rows(attempt: Option<Attempt>, parts: map<PartKey, Bytes>, visible: Option<Snapshot>)

  datatype Outcome = Outcome(accepted: bool, published: bool, state: Option<AttemptState>, error: Option<IngestError>)

  function NewAttempt(f: Frame): Attempt {
    match f
    case PartFrame(revision, observedAt, barrier, _, count, truncated, _, _) =>
      Attempt(revision, Staging, observedAt, barrier, count, 0, 0, truncated, 0)
    case OverflowFrame(revision, observedAt, barrier, groupCount) =>
      Attempt(revision, Overflow, observedAt, barrier, 0, 0, 0, false, groupCount)
  }

  // now is the database time the rejected row is stamped with.
  function NewRejected(revision: int, now: int): Attempt {
    Attempt(revision, Rejected, now, 0, 0, 0, 0, false, 0)
  }

  function RejectedAttempt(a: Attempt): Attempt {
    a.(state := Rejected, received := 0, bytes := 0, groupCount := 0)
  }

  function WithoutRevision(parts: map<PartKey, Bytes>, revision: int): map<PartKey, Bytes> {
    map k | k in parts && k.revision != revision :: parts[k]
  }

  predicate Matches(f: Frame, a: Attempt) {
    f.PartFrame? && f.count == a.partCount && f.observedAt == a.observedAt && f.barrier == a.barrier && f.truncated == a.truncated
  }

  function Indices(parts: map<PartKey, Bytes>, revision: int): set<int> {
    set k | k in parts && k.revision == revision :: k.index
  }

  // rows lists the staged parts of one revision by ascending index: the completion query.
  ghost predicate Lists(rows: seq<PartRow>, parts: map<PartKey, Bytes>, revision: int) {
    && (forall i ::
        0 <= i < |rows|
        ==> PartKey(revision, rows[i].index) in parts && parts[PartKey(revision, rows[i].index)] == rows[i].payload)
    && (forall i, j :: 0 <= i < j < |rows| ==> rows[i].index < rows[j].index)
    && (forall k :: k in parts && k.revision == revision ==> exists i :: 0 <= i < |rows| && rows[i].index == k.index)
  }

  lemma {:induction false} LeastIndex(s: set<int>) returns (least: int)
    requires s != {}
    ensures least in s && forall x :: x in s ==> least <= x
  {
    var pick := AnyMember(s);
    least := pick;
    if s != {pick} {
      var other := LeastIndex(s - {pick});
      if other < pick { least := other; }
      assert forall x :: x in s ==> x == pick || x in s - {pick};
    }
  }

  method QueryParts(parts: map<PartKey, Bytes>, revision: int) returns (rows: seq<PartRow>)
    ensures Lists(rows, parts, revision)
  {
    rows := [];
    var rest := Indices(parts, revision);
    while rest != {}
      invariant rest <= Indices(parts, revision)
      invariant forall i ::
          0 <= i < |rows|
          ==> PartKey(revision, rows[i].index) in parts && parts[PartKey(revision, rows[i].index)] == rows[i].payload
      invariant forall i, j :: 0 <= i < j < |rows| ==> rows[i].index < rows[j].index
      invariant forall i, x :: 0 <= i < |rows| && x in rest ==> rows[i].index < x
      invariant forall k :: k in parts && k.revision == revision && k.index !in rest ==>
          exists i :: 0 <= i < |rows| && rows[i].index == k.index
      decreases rest
    {
      ghost var witnessed := LeastIndex(rest);
      var x :| x in rest && forall y :: y in rest ==> x <= y;
      var row := PartRow(x, parts[PartKey(revision, x)]);
      ghost var before := rows;
      rows := rows + [row];
      rest := rest - {x};
      forall k | k in parts && k.revision == revision && k.index !in rest
        ensures exists i :: 0 <= i < |rows| && rows[i].index == k.index
      {
        if k.index == x {
          assert rows[|before|].index == k.index;
        } else {
          var i :| 0 <= i < |before| && before[i].index == k.index;
          assert rows[i].index == k.index;
        }
      }
    }
  }

  lemma {:induction false} ListsNext(rows: seq<PartRow>, other: seq<PartRow>, parts: map<PartKey, Bytes>, revision: int, n: nat)
    requires Lists(rows, parts, revision) && Lists(other, parts, revision)
    requires n < |rows| && n <= |other| && forall j :: 0 <= j < n ==> rows[j] == other[j]
    ensures n < |other| && other[n].index <= rows[n].index
  {
    assert forall j :: 0 <= j < n ==> other[j].index < rows[n].index;
    var k := PartKey(revision, rows[n].index);
    assert k in parts;
    var i :| 0 <= i < |other| && other[i].index == k.index;
  }

  // The query has one answer.
  lemma {:induction false} ListsUnique(rows: seq<PartRow>, other: seq<PartRow>, parts: map<PartKey, Bytes>, revision: int, n: nat)
    requires Lists(rows, parts, revision) && Lists(other, parts, revision)
    requires n <= |rows| && n <= |other| && forall j :: 0 <= j < n ==> rows[j] == other[j]
    ensures rows == other
    decreases |rows| - n
  {
    if n < |rows| {
      ListsNext(rows, other, parts, revision, n);
      ListsNext(other, rows, parts, revision, n);
      assert parts[PartKey(revision, rows[n].index)] == rows[n].payload;
      ListsUnique(rows, other, parts, revision, n + 1);
    } else if n < |other| {
      ListsNext(other, rows, parts, revision, n);
    }
  }

  lemma ListExists(parts: map<PartKey, Bytes>, revision: int)
    ensures exists rows: seq<PartRow> :: Lists(rows, parts, revision)
  {
    var rows := ListOf(parts, Indices(parts, revision), revision);
    assert forall k :: k in parts && k.revision == revision ==> k.index in Indices(parts, revision);
    assert Lists(rows, parts, revision);
  }

  lemma {:induction false} ListOf(parts: map<PartKey, Bytes>, rest: set<int>, revision: int) returns (rows: seq<PartRow>)
    requires rest <= Indices(parts, revision)
    ensures forall i ::
        0 <= i < |rows|
        ==> rows[i].index in rest && PartKey(revision, rows[i].index) in parts
            && parts[PartKey(revision, rows[i].index)] == rows[i].payload
    ensures forall i, j :: 0 <= i < j < |rows| ==> rows[i].index < rows[j].index
    ensures forall x :: x in rest ==> exists i :: 0 <= i < |rows| && rows[i].index == x
    decreases rest
  {
    rows := [];
    if rest != {} {
      var x := LeastIndex(rest);
      var tail := ListOf(parts, rest - {x}, revision);
      rows := [PartRow(x, parts[PartKey(revision, x)])] + tail;
      forall y | y in rest ensures exists i :: 0 <= i < |rows| && rows[i].index == y {
        if y == x {
          assert rows[0].index == y;
        } else {
          assert y in rest - {x};
          var i :| 0 <= i < |tail| && tail[i].index == y;
          assert rows[i + 1].index == y;
        }
      }
    }
  }

  ghost function OrderedParts(parts: map<PartKey, Bytes>, revision: int): seq<PartRow> {
    ListExists(parts, revision);
    var rows :| Lists(rows, parts, revision);
    rows
  }

  lemma OrderedPartsListed(parts: map<PartKey, Bytes>, revision: int)
    ensures Lists(OrderedParts(parts, revision), parts, revision)
  {
    ListExists(parts, revision);
  }

  function Refused(attempt: Option<Attempt>, parts: map<PartKey, Bytes>, visible: Option<Snapshot>,
      state: Option<AttemptState>, error: IngestError): (Rows, Outcome) {
    (Rows(attempt, parts, visible), Outcome(false, false, state, Some(error)))
  }

  function Reject(a: Attempt, parts: map<PartKey, Bytes>, visible: Option<Snapshot>, error: IngestError): (Rows, Outcome) {
    Refused(Some(RejectedAttempt(a)), WithoutRevision(parts, a.highest), visible, Some(Rejected), error)
  }

  // The last part has arrived: assemble the queried rows and either publish them or reject the revision.
  function Finish(codec: Codec, a: Attempt, parts: map<PartKey, Bytes>, visible: Option<Snapshot>,
                  f: Frame, rows: seq<PartRow>, limits: Limits): (Rows, Outcome)
    requires f.PartFrame?
  {
    match Assemble(codec, rows, f, limits)
    case Err(e) => Reject(a, parts, visible, e)
    case Ok(payload) =>
      (Rows(Some(a.(state := Complete)), parts, Some(Snapshot(f.revision, f.observedAt, f.barrier, f.truncated, payload))),
       Outcome(true, true, Some(Complete), None))
  }

  // stored is the attempt row as the database holds it; a is the row in memory, which differs
  // from it only when a newer revision has just replaced it. rows is what the completion query
  // would answer once this part is stored.
  function StagePartWith(codec: Codec, stored: Option<Attempt>, a: Attempt, parts: map<PartKey, Bytes>, visible: Option<Snapshot>,
                         f: Frame, raw: Bytes, limits: Limits, rows: seq<PartRow>): (Rows, Outcome)
    requires f.PartFrame?
  {
    var key := PartKey(f.revision, f.index);
    if key in parts then
      if parts[key] == raw then (Rows(stored, parts, visible), Outcome(true, false, Some(a.state), None))
      else Reject(a, parts, visible, RevisionConflict)
    else if !Matches(f, a) then Reject(a, parts, visible, FrameInvalid)
    else
      var staged := parts[key := raw];
      if a.bytes + |raw| > MAX_INT64 then Refused(stored, staged, visible, None, RevisionOverflow)
      else
        var next := a.(received := a.received + 1, bytes := a.bytes + |raw|);
        if limits.maxRevisionBytes > 0 && next.bytes > limits.maxRevisionBytes then Reject(next, staged, visible, RevisionOverflow)
        else if next.received != next.partCount then (Rows(Some(next), staged, visible), Outcome(true, false, Some(Staging), None))
        else Finish(codec, next, staged, visible, f, rows, limits)
  }

  // A single part is already in memory; several are read back in index order.
  ghost function CompletionRows(parts: map<PartKey, Bytes>, f: Frame, raw: Bytes): seq<PartRow>
    requires f.PartFrame?
  {
    if f.count > 1 then OrderedParts(parts[PartKey(f.revision, f.index) := raw], f.revision) else [PartRow(f.index, raw)]
  }

  ghost function StagePart(codec: Codec, stored: Option<Attempt>, a: Attempt, parts: map<PartKey, Bytes>, visible: Option<Snapshot>,
                           f: Frame, raw: Bytes, limits: Limits): (Rows, Outcome)
    requires f.PartFrame?
  {
    StagePartWith(codec, stored, a, parts, visible, f, raw, limits, CompletionRows(parts, f, raw))
  }

  ghost function StageFrame(codec: Codec, s: Rows, f: Frame, raw: Bytes, limits: Limits): (Rows, Outcome) {
    if s.attempt.None? || f.revision > s.attempt.value.highest then
      var started := NewAttempt(f);
      var cleared := if s.attempt.None? then s.parts else map[];
      if f.OverflowFrame? then (Rows(Some(started), cleared, s.visible), Outcome(true, false, Some(Overflow), None))
      else StagePart(codec, if s.attempt.None? then Some(started) else s.attempt, started, cleared, s.visible, f, raw, limits)
    else
      var a := s.attempt.value;
      if f.revision < a.highest then Refused(s.attempt, s.parts, s.visible, Some(a.state), RevisionStale)
      else match a.state
        case Overflow => Refused(s.attempt, s.parts, s.visible, Some(a.state), RevisionStale)
        case Rejected => Refused(s.attempt, s.parts, s.visible, Some(a.state), RevisionStale)
        case Complete =>
          if f.PartFrame? && PartKey(f.revision, f.index) in s.parts && s.parts[PartKey(f.revision, f.index)] == raw
          then (s, Outcome(true, false, Some(Complete), None))
          else Refused(s.attempt, s.parts, s.visible, Some(Complete), RevisionConflict)
        case Staging =>
          if f.OverflowFrame? then Reject(a, s.parts, s.visible, RevisionConflict)
          else StagePart(codec, s.attempt, a, s.parts, s.visible, f, raw, limits)
  }

  // A frame that cannot be decoded still uses up its revision. cause is the decoding error.
  function MarkRejected(s: Rows, revision: int, now: int, cause: IngestError): (Rows, Outcome) {
    if s.attempt.None? then Refused(Some(NewRejected(revision, now)), s.parts, s.visible, Some(Rejected), cause)
    else
      var a := s.attempt.value;
      if revision < a.highest then Refused(s.attempt, s.parts, s.visible, Some(a.state), RevisionStale)
      else if revision > a.highest then Refused(Some(NewRejected(revision, now)), map[], s.visible, Some(Rejected), cause)
      else match a.state
        case Staging => Reject(a, s.parts, s.visible, cause)
        case Complete => Refused(s.attempt, s.parts, s.visible, Some(Complete), RevisionConflict)
        case _ => Refused(s.attempt, s.parts, s.visible, Some(a.state), RevisionStale)
  }

  // One call of IngestInFlightFrame for an active membership.
  ghost function Ingest(codec: Codec, s: Rows, raw: Bytes, limits: Limits, now: int): (Rows, Outcome) {
    var envelope := DecodeEnvelope(codec, raw);
    if !envelope.ok then
      if envelope.revision <= 0 then (s, Outcome(false, false, None, Some(FrameInvalid)))
      else MarkRejected(s, envelope.revision, now, FrameInvalid)
    else match DecodeStrict(codec, raw, limits)
      case Err(e) => MarkRejected(s, envelope.revision, now, e)
      case Ok(f) => StageFrame(codec, s, f, raw, limits)
  }

  class InFlightRows {
    var attempt: Option<Attempt>
    var parts: map<PartKey, Bytes>
    var visible: Option<Snapshot>

    ghost function State(): Rows
      reads this
    {
      Rows(attempt, parts, visible)
    }

    constructor ()
      ensures State() == Rows(None, map[], None)
    {
      attempt, parts, visible := None, map[], None;
    }

    // rejectInFlightAttempt: drops the revision's parts and saves the reset row.
    method RejectAttempt(a: Attempt, error: IngestError) returns (o: Outcome)
      modifies this
      ensures (State(), o) == Reject(a, old(parts), old(visible), error)
    {
      parts := map k | k in parts && k.revision != a.highest :: parts[k];
      attempt := Some(a.(state := Rejected, received := 0, bytes := 0, groupCount := 0));
      o := Outcome(false, false, Some(Rejected), Some(error));
    }

    method StagePartRow(codec: Codec, a: Attempt, f: Frame, raw: Bytes, limits: Limits) returns (o: Outcome)
      requires f.PartFrame?
      modifies this
      ensures (State(), o) == StagePart(codec, old(attempt), a, old(parts), old(visible), f, raw, limits)
    {
      var key := PartKey(f.revision, f.index);
      if key in parts {
        if parts[key] == raw { return Outcome(true, false, Some(a.state), None); }
        o := RejectAttempt(a, RevisionConflict);
        return;
      }
      if !Matches(f, a) {
        o := RejectAttempt(a, FrameInvalid);
        return;
      }
      parts := parts[key := raw];
      var encoded := CheckedAdd(a.bytes, |raw|);
      if encoded.None? { return Outcome(false, false, None, Some(RevisionOverflow)); }
      var next := a.(received := a.received + 1, bytes := encoded.value);
      if limits.maxRevisionBytes > 0 && next.bytes > limits.maxRevisionBytes {
        o := RejectAttempt(next, RevisionOverflow);
        return;
      }
      if next.received != next.partCount {
        attempt := Some(next);
        return Outcome(true, false, Some(Staging), None);
      }
      var rows := [PartRow(f.index, raw)];
      if next.partCount > 1 {
        rows := QueryParts(parts, f.revision);
        OrderedPartsListed(parts, f.revision);
        ListsUnique(rows, OrderedParts(parts, f.revision), parts, f.revision, 0);
      }
      var payload := CompletePayload(codec, rows, f, limits);
      if payload.Err? {
        o := RejectAttempt(next, payload.error);
        return;
      }
      visible := Some(Snapshot(f.revision, f.observedAt, f.barrier, f.truncated, payload.value));
      attempt := Some(next.(state := Complete));
      o := Outcome(true, true, Some(Complete), None);
    }

    method StageFrameRow(codec: Codec, f: Frame, raw: Bytes, limits: Limits) returns (o: Outcome)
      modifies this
      ensures (State(), o) == StageFrame(codec, old(State()), f, raw, limits)
    {
      if attempt.None? || f.revision > attempt.value.highest {
        var started := NewAttempt(f);
        if attempt.None? { attempt := Some(started); } else { parts := map[]; }
        if f.OverflowFrame? {
          attempt := Some(started);
          return Outcome(true, false, Some(Overflow), None);
        }
        o := StagePartRow(codec, started, f, raw, limits);
        return;
      }
      var a := attempt.value;
      if f.revision < a.highest { return Outcome(false, false, Some(a.state), Some(RevisionStale)); }
      match a.state
      case Overflow => o := Outcome(false, false, Some(a.state), Some(RevisionStale));
      case Rejected => o := Outcome(false, false, Some(a.state), Some(RevisionStale));
      case Complete =>
        if f.PartFrame? && PartKey(f.revision, f.index) in parts && parts[PartKey(f.revision, f.index)] == raw {
          o := Outcome(true, false, Some(Complete), None);
        } else {
          o := Outcome(false, false, Some(Complete), Some(RevisionConflict));
        }
      case Staging =>
        if f.OverflowFrame? {
          o := RejectAttempt(a, RevisionConflict);
        } else {
          o := StagePartRow(codec, a, f, raw, limits);
        }
    }

    method MarkRejectedRow(revision: int, now: int, cause: IngestError) returns (o: Outcome)
      modifies this
      ensures (State(), o) == MarkRejected(old(State()), revision, now, cause)
    {
      if attempt.None? {
        attempt := Some(NewRejected(revision, now));
        return Outcome(false, false, Some(Rejected), Some(cause));
      }
      var a := attempt.value;
      if revision < a.highest { return Outcome(false, false, Some(a.state), Some(RevisionStale)); }
      if revision > a.highest {
        parts := map[];
        attempt := Some(NewRejected(revision, now));
        return Outcome(false, false, Some(Rejected), Some(cause));
      }
      match a.state
      case Staging => o := RejectAttempt(a, cause);
      case Complete => o := Outcome(false, false, Some(Complete), Some(RevisionConflict));
      case _ => o := Outcome(false, false, Some(a.state), Some(RevisionStale));
    }

    method IngestFrame(codec: Codec, raw: Bytes, limits: Limits, now: int) returns (o: Outcome)
      modifies this
      ensures (State(), o) == Ingest(codec, old(State()), raw, limits, now)
    {
      var envelope := DecodeEnvelope(codec, raw);
      if !envelope.ok && envelope.revision <= 0 { return Outcome(false, false, None, Some(FrameInvalid)); }
      if !envelope.ok {
        o := MarkRejectedRow(envelope.revision, now, FrameInvalid);
        return;
      }
      var decoded := DecodeStrict(codec, raw, limits);
      match decoded
      case Err(e) => o := MarkRejectedRow(envelope.revision, now, e);
      case Ok(f) => o := StageFrameRow(codec, f, raw, limits);
    }
  }
}
