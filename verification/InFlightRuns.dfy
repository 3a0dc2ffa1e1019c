/** What every run of the ingest transaction keeps, why completion cannot fail for structural
    reasons, and why the order and repetition of part deliveries do not matter. */
module InFlightRuns {
  import opened Wrappers
  import opened InFlightFrames
  import opened InFlightIngest

  // Below this part count a revision of 16 MiB parts cannot overflow the stored byte sum.
  const MAX_PARTS: int := 0x7f_ffff_ffff

  predicate SaneLimits(limits: Limits) { 0 < limits.maxPartCount <= MAX_PARTS }

  // A staged row is the named part of the attempt's revision, with the attempt's metadata.
  predicate PartOf(codec: Codec, a: Attempt, k: PartKey, raw: Bytes) {
    && k.revision == a.highest && 0 <= k.index < a.partCount && |raw| <= MAX_ENVELOPE_BYTES
    && var f := codec.frame(raw);
       f.Some? && f.value.PartFrame? && f.value.revision == a.highest && f.value.index == k.index && Matches(f.value, a)
  }

  // The byte sum of the staged parts of a revision whose index is below n.
  function StagedBytes(parts: map<PartKey, Bytes>, revision: int, n: nat): nat {
    if n == 0 then 0
    else
      var k := PartKey(revision, n - 1);
      StagedBytes(parts, revision, n - 1) + if k in parts then |parts[k]| else 0
  }

  ghost predicate Inv(codec: Codec, s: Rows) {
    match s.attempt
    case None => s.parts == map[] && s.visible == None
    case Some(a) =>
      && 0 <= a.partCount <= MAX_PARTS
      && (forall k :: k in s.parts ==> PartOf(codec, a, k, s.parts[k]))
      && (a.state == Staging ==> 0 < a.received == |s.parts| < a.partCount && a.bytes == StagedBytes(s.parts, a.highest, a.partCount))
      && (a.state == Complete ==>
            && a.received == |s.parts| == a.partCount && a.bytes == StagedBytes(s.parts, a.highest, a.partCount)
            && s.visible.Some? && s.visible.value.revision == a.highest)
      && (a.state == Rejected || a.state == Overflow ==> s.parts == map[] && a.received == 0 && a.bytes == 0)
      && (s.visible.Some? && a.state != Complete ==> s.visible.value.revision < a.highest)
  }

  lemma {:induction false} StagedBytesAdd(parts: map<PartKey, Bytes>, revision: int, n: nat, index: nat, raw: Bytes)
    requires PartKey(revision, index) !in parts
    ensures StagedBytes(parts[PartKey(revision, index) := raw], revision, n) ==
            StagedBytes(parts, revision, n) + if index < n then |raw| else 0
  {
    if n > 0 { StagedBytesAdd(parts, revision, n - 1, index, raw); }
  }

  lemma {:induction false} StagedBytesBounded(parts: map<PartKey, Bytes>, revision: int, n: nat)
    requires forall k :: k in parts ==> |parts[k]| <= MAX_ENVELOPE_BYTES
    ensures StagedBytes(parts, revision, n) <= MAX_ENVELOPE_BYTES * n
  {
    if n > 0 { StagedBytesBounded(parts, revision, n - 1); }
  }

  lemma StagedBytesNone(revision: int, n: nat)
    ensures StagedBytes(map[], revision, n) == 0
  {
  }

  lemma RejectKeepsInv(codec: Codec, a: Attempt, parts: map<PartKey, Bytes>, visible: Option<Snapshot>, error: IngestError)
    requires 0 <= a.partCount <= MAX_PARTS
    requires forall k :: k in parts ==> k.revision == a.highest
    requires visible.Some? ==> visible.value.revision < a.highest
    ensures Inv(codec, Reject(a, parts, visible, error).0)
  {
    assert WithoutRevision(parts, a.highest) == map[];
  }

  // The attempt that a part is staged into: either the current staging row or a new one.
  ghost predicate Stageable(codec: Codec, a: Attempt, parts: map<PartKey, Bytes>, visible: Option<Snapshot>) {
    && a.state == Staging && 0 <= a.received == |parts| < a.partCount <= MAX_PARTS
    && (forall k :: k in parts ==> PartOf(codec, a, k, parts[k]))
    && a.bytes == StagedBytes(parts, a.highest, a.partCount)
    && (visible.Some? ==> visible.value.revision < a.highest)
  }

  lemma {:induction false} AddKey(codec: Codec, a: Attempt, parts: map<PartKey, Bytes>, key: PartKey, raw: Bytes)
    requires forall k :: k in parts ==> PartOf(codec, a, k, parts[k])
    requires key !in parts && PartOf(codec, a, key, raw)
    ensures var staged := parts[key := raw];
            && (forall k :: k in staged ==> PartOf(codec, a, k, staged[k]))
            && |staged| == |parts| + 1
  {
    assert parts[key := raw].Keys == parts.Keys + {key};
  }

  lemma {:induction false} AddPart(codec: Codec, a: Attempt, parts: map<PartKey, Bytes>, visible: Option<Snapshot>, f: Frame, raw: Bytes)
    requires Stageable(codec, a, parts, visible) && f.revision == a.highest && Matches(f, a)
    requires codec.frame(raw) == Some(f) && 0 <= f.index < f.count && |raw| <= MAX_ENVELOPE_BYTES
    requires PartKey(f.revision, f.index) !in parts
    ensures var staged := parts[PartKey(f.revision, f.index) := raw];
            && (forall k :: k in staged ==> PartOf(codec, a, k, staged[k]))
            && |staged| == a.received + 1
            && a.bytes + |raw| == StagedBytes(staged, a.highest, a.partCount) <= MAX_INT64
  {
    var key := PartKey(f.revision, f.index);
    AddKey(codec, a, parts, key, raw);
    StagedBytesAdd(parts, a.highest, a.partCount, f.index, raw);
    StagedBytesBounded(parts[key := raw], a.highest, a.partCount);
  }

  lemma {:induction false} FinishKeepsInv(codec: Codec, a: Attempt, parts: map<PartKey, Bytes>, visible: Option<Snapshot>,
                                          f: Frame, rows: seq<PartRow>, limits: Limits)
    requires f.PartFrame? && f.revision == a.highest && 0 <= a.partCount <= MAX_PARTS
    requires forall k :: k in parts ==> PartOf(codec, a, k, parts[k])
    requires a.received == |parts| == a.partCount && a.bytes == StagedBytes(parts, a.highest, a.partCount)
    requires visible.Some? ==> visible.value.revision < a.highest
    ensures var (s, o) := Finish(codec, a, parts, visible, f, rows, limits);
            StagesInto(codec, a, visible, s, o)
  {
    var assembled := Assemble(codec, rows, f, limits);
    if assembled.Err? { RejectKeepsInv(codec, a, parts, visible, assembled.error); }
  }

  ghost predicate StagesInto(codec: Codec, a: Attempt, visible: Option<Snapshot>, s: Rows, o: Outcome) {
    && Inv(codec, s) && s.attempt.Some? && s.attempt.value.highest == a.highest
    && (!o.published ==> s.visible == visible)
    && (o.published ==> s.attempt.value.state == Complete)
  }

  lemma {:induction false} StageNewPart(codec: Codec, stored: Option<Attempt>, a: Attempt, parts: map<PartKey, Bytes>,
      visible: Option<Snapshot>,
                                        f: Frame, raw: Bytes, limits: Limits, rows: seq<PartRow>)
    requires Stageable(codec, a, parts, visible) && f.revision == a.highest && Matches(f, a)
    requires codec.frame(raw) == Some(f) && 0 <= f.index < f.count && |raw| <= MAX_ENVELOPE_BYTES
    requires PartKey(f.revision, f.index) !in parts
    ensures var (s, o) := StagePartWith(codec, stored, a, parts, visible, f, raw, limits, rows); StagesInto(codec, a, visible, s, o)
  {
    AddPart(codec, a, parts, visible, f, raw);
    var staged := parts[PartKey(f.revision, f.index) := raw];
    var next := a.(received := a.received + 1, bytes := a.bytes + |raw|);
    if limits.maxRevisionBytes > 0 && next.bytes > limits.maxRevisionBytes {
      RejectKeepsInv(codec, next, staged, visible, RevisionOverflow);
    } else if next.received == next.partCount {
      FinishKeepsInv(codec, next, staged, visible, f, rows, limits);
    } else {
      assert Inv(codec, Rows(Some(next), staged, visible));
    }
  }

  lemma {:induction false} StagePartKeepsInv(codec: Codec, stored: Option<Attempt>, a: Attempt, parts: map<PartKey, Bytes>,
      visible: Option<Snapshot>,
                                             f: Frame, raw: Bytes, limits: Limits, rows: seq<PartRow>)
    requires Stageable(codec, a, parts, visible) && f.revision == a.highest
    requires codec.frame(raw) == Some(f) && f.PartFrame? && 0 <= f.index < f.count && |raw| <= MAX_ENVELOPE_BYTES
    requires parts != map[] ==> stored == Some(a)
    ensures var (s, o) := StagePartWith(codec, stored, a, parts, visible, f, raw, limits, rows); StagesInto(codec, a, visible, s, o)
  {
    var key := PartKey(f.revision, f.index);
    if key in parts {
      assert |parts| > 0;
      RejectKeepsInv(codec, a, parts, visible, RevisionConflict);
    } else if !Matches(f, a) {
      RejectKeepsInv(codec, a, parts, visible, FrameInvalid);
    } else {
      StageNewPart(codec, stored, a, parts, visible, f, raw, limits, rows);
    }
  }

  ghost predicate Settled(s: Rows) { s.attempt.Some? && s.attempt.value.state != Staging }

  function Highest(s: Rows): int { if s.attempt.Some? then s.attempt.value.highest else 0 }

  lemma StageFrameKeepsInv(codec: Codec, s: Rows, f: Frame, raw: Bytes, limits: Limits)
    requires Inv(codec, s) && SaneLimits(limits)
    requires codec.frame(raw) == Some(f) && FrameError(codec, f, |raw|, limits) == None && |raw| <= MAX_ENVELOPE_BYTES
    ensures var (t, o) := StageFrame(codec, s, f, raw, limits); StepKeeps(codec, s, t, o)
  {
    if s.attempt.None? || f.revision > s.attempt.value.highest {
      if f.PartFrame? {
        var started := NewAttempt(f);
        StagedBytesNone(f.revision, f.count);
        StagePartKeepsInv(codec, if s.attempt.None? then Some(started) else s.attempt, started, map[], s.visible, f, raw,
            limits, CompletionRows(map[], f, raw));
      }
    } else {
      var a := s.attempt.value;
      if f.revision == a.highest && a.state == Staging {
        if f.OverflowFrame? {
          RejectKeepsInv(codec, a, s.parts, s.visible, RevisionConflict);
        } else {
          StagePartKeepsInv(codec, s.attempt, a, s.parts, s.visible, f, raw, limits, CompletionRows(s.parts, f, raw));
        }
      }
    }
  }

  // One step keeps the invariant, never lowers the highest revision, changes the visible snapshot
  // only by publishing, publishes only the highest revision, and never one that was already
  // published, rejected or overflowed.
  ghost predicate StepKeeps(codec: Codec, s: Rows, t: Rows, o: Outcome) {
    && Inv(codec, t)
    && (s.attempt.Some? ==> t.attempt.Some? && s.attempt.value.highest <= t.attempt.value.highest)
    && (!o.published ==> t.visible == s.visible)
    && (o.published ==>
          && t.attempt.Some? && t.visible.Some? && t.visible.value.revision == t.attempt.value.highest
          && t.attempt.value.state == Complete
          && (s.visible.Some? ==> s.visible.value.revision < t.visible.value.revision)
          && (Settled(s) ==> s.attempt.value.highest < t.visible.value.revision))
    && (Settled(s) && t.attempt.value.highest == s.attempt.value.highest ==> t == s)
  }

  lemma IngestKeepsInv(codec: Codec, s: Rows, raw: Bytes, limits: Limits, now: int)
    requires Inv(codec, s) && SaneLimits(limits)
    ensures var (t, o) := Ingest(codec, s, raw, limits, now); StepKeeps(codec, s, t, o)
  {
    var envelope := DecodeEnvelope(codec, raw);
    if envelope.ok && DecodeStrict(codec, raw, limits).Ok? {
      StageFrameKeepsInv(codec, s, DecodeStrict(codec, raw, limits).value, raw, limits);
    } else if envelope.revision > 0 {
      var cause := if envelope.ok then DecodeStrict(codec, raw, limits).error else FrameInvalid;
      if s.attempt.Some? && envelope.revision == s.attempt.value.highest && s.attempt.value.state == Staging {
        RejectKeepsInv(codec, s.attempt.value, s.parts, s.visible, cause);
      }
    }
  }

  datatype Message = Message(raw: Bytes, limits: Limits, now: int)

  ghost function Run(codec: Codec, s: Rows, messages: seq<Message>): Rows
    decreases |messages|
  {
    if messages == [] then s
    else Run(codec, Ingest(codec, s, messages[0].raw, messages[0].limits, messages[0].now).0, messages[1..])
  }

  // The revisions a run publishes, in order.
  ghost function Published(codec: Codec, s: Rows, messages: seq<Message>): seq<int>
    decreases |messages|
  {
    if messages == [] then []
    else
      var (t, o) := Ingest(codec, s, messages[0].raw, messages[0].limits, messages[0].now);
      (if o.published && t.visible.Some? then [t.visible.value.revision] else []) + Published(codec, t, messages[1..])
  }

  // What a run from s may publish: strictly increasing revisions, above everything published
  // before, and above the current revision if that one was published, rejected or overflowed.
  ghost predicate Publishable(s: Rows, ps: seq<int>) {
    && (forall i, j :: 0 <= i < j < |ps| ==> ps[i] < ps[j])
    && (forall i :: 0 <= i < |ps| ==> Admissible(s, ps[i]))
  }

  ghost predicate Admissible(s: Rows, revision: int) {
    && (s.attempt.Some? ==> revision >= s.attempt.value.highest)
    && (Settled(s) ==> revision > s.attempt.value.highest)
    && (s.visible.Some? ==> revision > s.visible.value.revision)
  }

  lemma AdmissibleEarlier(codec: Codec, s: Rows, t: Rows, o: Outcome, revision: int)
    requires Inv(codec, s) && StepKeeps(codec, s, t, o) && Admissible(t, revision)
    ensures Admissible(s, revision)
  {
  }

  // Every run, from any reachable state and under limits that may change from frame to frame,
  // keeps the invariant, never lowers the highest revision, publishes as Publishable allows, and
  // leaves the last published revision visible.
  lemma {:induction false} RunSafety(codec: Codec, s: Rows, messages: seq<Message>)
    requires Inv(codec, s) && forall i :: 0 <= i < |messages| ==> SaneLimits(messages[i].limits)
    ensures Inv(codec, Run(codec, s, messages))
    ensures s.attempt.Some? ==> Highest(s) <= Highest(Run(codec, s, messages)) && Run(codec, s, messages).attempt.Some?
    ensures Publishable(s, Published(codec, s, messages))
    ensures var ps := Published(codec, s, messages);
            var t := Run(codec, s, messages);
            if ps == [] then t.visible == s.visible else t.visible.Some? && t.visible.value.revision == ps[|ps| - 1]
    decreases |messages|
  {
    if messages != [] {
      var m := messages[0];
      var (t, o) := Ingest(codec, s, m.raw, m.limits, m.now);
      IngestKeepsInv(codec, s, m.raw, m.limits, m.now);
      RunSafety(codec, t, messages[1..]);
      PublishOne(codec, s, t, o, Published(codec, t, messages[1..]));
    }
  }

  lemma PublishOne(codec: Codec, s: Rows, t: Rows, o: Outcome, later: seq<int>)
    requires Inv(codec, s) && StepKeeps(codec, s, t, o) && Publishable(t, later)
    ensures Publishable(s, (if o.published && t.visible.Some? then [t.visible.value.revision] else []) + later)
  {
    forall i | 0 <= i < |later| ensures Admissible(s, later[i]) {
      AdmissibleEarlier(codec, s, t, o, later[i]);
    }
    var ps := (if o.published && t.visible.Some? then [t.visible.value.revision] else []) + later;
    assert !o.published ==> ps == later;
  }

  // -- Pigeonhole at completion ------------------------------------------------------------

  ghost function AllKeys(revision: int, n: nat): (keys: set<PartKey>)
    ensures |keys| == n
    ensures forall k :: k in keys <==> k.revision == revision && 0 <= k.index < n
  {
    if n == 0 then {} else AllKeys(revision, n - 1) + {PartKey(revision, n - 1)}
  }

  lemma SubsetOfSameSize<T>(s: set<T>, t: set<T>)
    requires s <= t && |s| == |t|
    ensures s == t
  {
    assert t == s + (t - s);
    assert |t - s| == 0;
  }

  ghost function InOrder(parts: map<PartKey, Bytes>, revision: int, n: nat): seq<PartRow>
    requires parts.Keys == AllKeys(revision, n)
  {
    seq(n, i requires 0 <= i < n => PartRow(i, parts[PartKey(revision, i)]))
  }

  lemma InOrderIsListed(parts: map<PartKey, Bytes>, revision: int, n: nat)
    requires parts.Keys == AllKeys(revision, n)
    ensures OrderedParts(parts, revision) == InOrder(parts, revision, n)
  {
    var rows := InOrder(parts, revision, n);
    forall k | k in parts && k.revision == revision ensures exists i :: 0 <= i < |rows| && rows[i].index == k.index {
      assert k in AllKeys(revision, n);
      assert rows[k.index].index == k.index;
    }
    OrderedPartsListed(parts, revision);
    ListsUnique(OrderedParts(parts, revision), rows, parts, revision, 0);
  }

  lemma {:induction false} EncodedIsStaged(parts: map<PartKey, Bytes>, revision: int, n: nat, m: nat)
    requires parts.Keys == AllKeys(revision, n) && m <= n
    ensures EncodedBytes(InOrder(parts, revision, n)[..m]) == StagedBytes(parts, revision, m)
  {
    var rows := InOrder(parts, revision, n);
    if m > 0 {
      assert rows[..m][..m - 1] == rows[..m - 1];
      assert PartKey(revision, m - 1) in AllKeys(revision, n);
      EncodedIsStaged(parts, revision, n, m - 1);
    }
  }

  // f is the part that brings the stored count up to the part count, it agrees with the parts
  // already staged, and the limits still accept what they accepted before.
  ghost predicate LastPart(codec: Codec, a: Attempt, parts: map<PartKey, Bytes>, visible: Option<Snapshot>, f: Frame,
      raw: Bytes, limits: Limits) {
    && Stageable(codec, a, parts, visible) && a.received + 1 == a.partCount
    && |raw| <= MAX_ENVELOPE_BYTES && DecodeStrict(codec, raw, limits) == Ok(f)
    && f.revision == a.highest && Matches(f, a) && PartKey(f.revision, f.index) !in parts
    && (limits.maxRevisionBytes > 0 ==> a.bytes + |raw| <= limits.maxRevisionBytes)
    && (forall k :: k in parts ==> DecodeStrict(codec, parts[k], limits).Ok?)
  }

  lemma {:induction false} PartsAreGoodRows(codec: Codec, a: Attempt, parts: map<PartKey, Bytes>, f: Frame, limits: Limits)
    requires Matches(f, a) && f.revision == a.highest && a.partCount >= 0 && parts.Keys == AllKeys(a.highest, a.partCount)
    requires forall k :: k in parts ==> PartOf(codec, a, k, parts[k]) && DecodeStrict(codec, parts[k], limits).Ok?
    ensures var rows := InOrder(parts, a.highest, a.partCount);
            forall i :: 0 <= i < |rows| ==> GoodRow(codec, rows, i, f, limits)
  {
    var rows := InOrder(parts, a.highest, a.partCount);
    forall i | 0 <= i < |rows| ensures GoodRow(codec, rows, i, f, limits) {
      var k := PartKey(a.highest, i);
      assert k in AllKeys(a.highest, a.partCount);
      assert PartOf(codec, a, k, parts[k]);
    }
  }

  // When the incremental count says that this frame is the last one, the staged indices are
  // exactly 0..count-1, and row i of the completion query is part i of this revision.
  lemma {:induction false} LastPartFills(codec: Codec, a: Attempt, parts: map<PartKey, Bytes>, visible: Option<Snapshot>,
      f: Frame, raw: Bytes, limits: Limits)
    requires LastPart(codec, a, parts, visible, f, raw, limits)
    ensures var staged := parts[PartKey(f.revision, f.index) := raw];
            && staged.Keys == AllKeys(f.revision, f.count)
            && var rows := InOrder(staged, f.revision, f.count);
               && (forall i :: 0 <= i < |rows| ==> GoodRow(codec, rows, i, f, limits))
               && EncodedBytes(rows) == a.bytes + |raw| <= MAX_INT64
  {
    var staged := parts[PartKey(f.revision, f.index) := raw];
    AddPart(codec, a, parts, visible, f, raw);
    KeysFill(codec, a, staged);
    PartsAreGoodRows(codec, a, staged, f, limits);
    EncodedIsStaged(staged, f.revision, f.count, f.count);
    var rows := InOrder(staged, f.revision, f.count);
    assert rows[..f.count] == rows;
  }

  lemma {:induction false} KeysFill(codec: Codec, a: Attempt, parts: map<PartKey, Bytes>)
    requires forall k :: k in parts ==> PartOf(codec, a, k, parts[k])
    requires |parts| == a.partCount
    ensures parts.Keys == AllKeys(a.highest, a.partCount)
  {
    assert parts.Keys <= AllKeys(a.highest, a.partCount);
    SubsetOfSameSize(parts.Keys, AllKeys(a.highest, a.partCount));
  }

  // The published rows if the payload is publishable, the rejected rows otherwise.
  ghost function FinishedWith(codec: Codec, a: Attempt, staged: map<PartKey, Bytes>, visible: Option<Snapshot>, f: Frame,
      payload: Payload, limits: Limits): (Rows, Outcome)
    requires f.PartFrame? && f.count >= 0
  {
    match PayloadError(codec, payload, limits)
    case Some(e) => Refused(Some(RejectedAttempt(a)), map[], visible, Some(Rejected), e)
    case None =>
      (Rows(Some(a.(state := Complete, received := |staged|, bytes := StagedBytes(staged, f.revision, f.count))), staged,
            Some(Snapshot(f.revision, f.observedAt, f.barrier, f.truncated, payload))),
       Outcome(true, true, Some(Complete), None))
  }

  // Finish, given the rows the pigeonhole argument yields: only the payload can be refused.
  lemma {:induction false} FinishGoodRows(codec: Codec, a: Attempt, parts: map<PartKey, Bytes>, visible: Option<Snapshot>,
                                          f: Frame, rows: seq<PartRow>, limits: Limits)
    requires f.PartFrame? && |rows| == f.count && (forall i :: 0 <= i < |rows| ==> GoodRow(codec, rows, i, f, limits))
    requires EncodedBytes(rows) <= MAX_INT64 && (limits.maxRevisionBytes > 0 ==> EncodedBytes(rows) <= limits.maxRevisionBytes)
    requires (forall k :: k in parts ==> k.revision == a.highest) && a.received == |parts| && a.bytes == StagedBytes(parts,
        f.revision, f.count)
    ensures Finish(codec, a, parts, visible, f, rows, limits) ==
            FinishedWith(codec, a, parts, visible, f, Concatenated(codec, rows, f.count, f, limits), limits)
  {
    assert WithoutRevision(parts, a.highest) == map[];
  }

  lemma {:induction false} CompletionRowsInOrder(parts: map<PartKey, Bytes>, f: Frame, raw: Bytes)
    requires f.PartFrame? && 0 <= f.index < f.count
    requires parts[PartKey(f.revision, f.index) := raw].Keys == AllKeys(f.revision, f.count)
    ensures CompletionRows(parts, f, raw) == InOrder(parts[PartKey(f.revision, f.index) := raw], f.revision, f.count)
  {
    InOrderIsListed(parts[PartKey(f.revision, f.index) := raw], f.revision, f.count);
  }

  // Of everything assembly checks, only the payload itself can then be refused, and what is
  // published is the concatenation in part-index order.
  lemma {:induction false} LastPartCompletes(codec: Codec, stored: Option<Attempt>, a: Attempt, parts: map<PartKey, Bytes>,
      visible: Option<Snapshot>,
                                             f: Frame, raw: Bytes, limits: Limits)
    requires LastPart(codec, a, parts, visible, f, raw, limits)
    ensures var staged := parts[PartKey(f.revision, f.index) := raw];
            && staged.Keys == AllKeys(f.revision, f.count)
            && var rows := InOrder(staged, f.revision, f.count);
               && (forall i :: 0 <= i < |rows| ==> GoodRow(codec, rows, i, f, limits))
               && StagePart(codec, stored, a, parts, visible, f, raw, limits) ==
                    FinishedWith(codec, a, staged, visible, f, Concatenated(codec, rows, f.count, f, limits), limits)
  {
    LastPartFills(codec, a, parts, visible, f, raw, limits);
    var staged := parts[PartKey(f.revision, f.index) := raw];
    CompletionRowsInOrder(parts, f, raw);
    AddPart(codec, a, parts, visible, f, raw);
    LastPartFinishes(codec, stored, a, parts, visible, f, raw, limits, InOrder(staged, f.revision, f.count));
  }

  lemma {:induction false} LastPartFinishes(codec: Codec, stored: Option<Attempt>, a: Attempt, parts: map<PartKey, Bytes>,
      visible: Option<Snapshot>,
                                            f: Frame, raw: Bytes, limits: Limits, rows: seq<PartRow>)
    requires LastPart(codec, a, parts, visible, f, raw, limits)
    requires |rows| == f.count && (forall i :: 0 <= i < |rows| ==> GoodRow(codec, rows, i, f, limits))
    requires EncodedBytes(rows) == a.bytes + |raw| <= MAX_INT64
    ensures StagePartWith(codec, stored, a, parts, visible, f, raw, limits, rows) ==
            FinishedWith(codec, a, parts[PartKey(f.revision, f.index) := raw], visible, f, Concatenated(codec, rows, f.count,
                f, limits), limits)
  {
    AddPart(codec, a, parts, visible, f, raw);
    var staged := parts[PartKey(f.revision, f.index) := raw];
    var next := a.(received := a.received + 1, bytes := a.bytes + |raw|);
    FinishGoodRows(codec, next, staged, visible, f, rows, limits);
    assert StagePartWith(codec, stored, a, parts, visible, f, raw, limits, rows) == Finish(codec, next, staged, visible, f, rows, limits);
  }
}
