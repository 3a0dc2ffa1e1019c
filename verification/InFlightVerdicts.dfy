/** What becomes of one delivery, by what it carries and what is stored, without the steps that lead there; and what a
    refusal means for everything that comes later. */
module InFlightVerdicts {
  import opened Wrappers
  import opened InFlightFrames
  import opened InFlightIngest
  import opened InFlightRuns

  // -- Outcomes ----------------------------------------------------------------------------

  // Nothing changes, and the sender is told why.
  ghost predicate Ignored(s: Rows, t: Rows, o: Outcome, error: IngestError) {
    && t == s && s.attempt.Some? && !o.accepted && !o.published && o.state == Some(s.attempt.value.state) && o.error == Some(error)
  }

  // Nothing changes, because it is known already.
  ghost predicate Known(s: Rows, t: Rows, o: Outcome) {
    && t == s && s.attempt.Some? && o.accepted && !o.published && o.state == Some(s.attempt.value.state) && o.error == None
  }

  // The revision is rejected: none of its parts stay, and what was visible still is.
  ghost predicate Dropped(s: Rows, t: Rows, o: Outcome, revision: int, error: IngestError) {
    && t.attempt.Some? && t.attempt.value.highest == revision && t.attempt.value.state == Rejected
    && t.attempt.value.received == 0 && t.attempt.value.bytes == 0 && t.parts == map[] && t.visible == s.visible
    && !o.accepted && !o.published && o.state == Some(Rejected) && o.error == Some(error)
  }

  // The frame says of its revision what the first one said.
  predicate Fits(f: Frame, a: Attempt)
    requires f.PartFrame?
  {
    a.partCount == f.count && a.observedAt == f.observedAt && a.barrier == f.barrier && a.truncated == f.truncated
  }

  // The part is stored beside those of its revision that were there, and more are awaited.
  ghost predicate Progresses(s: Rows, t: Rows, o: Outcome, f: Frame, raw: Bytes, before: map<PartKey, Bytes>)
    requires f.PartFrame?
  {
    && t.parts == before[PartKey(f.revision, f.index) := raw] && t.visible == s.visible
    && t.attempt.Some? && t.attempt.value.highest == f.revision && t.attempt.value.state == Staging && Fits(f, t.attempt.value)
    && t.attempt.value.received == |t.parts| < f.count
    && o.accepted && !o.published && o.state == Some(Staging) && o.error == None
  }

  // A payload becomes visible, under the revision and the metadata of its frames.
  ghost predicate Publishes(s: Rows, t: Rows, o: Outcome, f: Frame, raw: Bytes, before: map<PartKey, Bytes>)
    requires f.PartFrame?
  {
    && t.parts == before[PartKey(f.revision, f.index) := raw] && |t.parts| == f.count
    && t.attempt.Some? && t.attempt.value.highest == f.revision && t.attempt.value.state == Complete
    && t.visible.Some? && t.visible.value.revision == f.revision && t.visible.value.observedAt == f.observedAt
    && t.visible.value.barrier == f.barrier && t.visible.value.truncated == f.truncated
    && o.accepted && o.published && o.state == Some(Complete) && o.error == None
  }

  // -- A part of the revision that is being staged -------------------------------------------

  // What a part that was not there yet comes to, given the parts that were.
  ghost predicate Arrives(codec: Codec, s: Rows, t: Rows, o: Outcome, f: Frame, raw: Bytes, limits: Limits, before: map<PartKey, Bytes>)
    requires f.PartFrame? && f.count >= 0
  {
    var staged := before[PartKey(f.revision, f.index) := raw];
    if limits.maxRevisionBytes > 0 && StagedBytes(staged, f.revision, f.count) > limits.maxRevisionBytes
    then Dropped(s, t, o, f.revision, RevisionOverflow)
    else if |staged| < f.count then Progresses(s, t, o, f, raw, before)
    else Publishes(s, t, o, f, raw, before) || exists error :: Dropped(s, t, o, f.revision, error)
  }

  // The last part: the revision is published or rejected.
  lemma LastArrives(codec: Codec, s: Rows, a: Attempt, staged: map<PartKey, Bytes>, f: Frame, rows: seq<PartRow>, limits: Limits)
    requires f.PartFrame? && a.highest == f.revision && |staged| == f.count && forall k :: k in staged ==> k.revision == f.revision
    ensures var (t, o) := Finish(codec, a, staged, s.visible, f, rows, limits);
            || (o.published && t.parts == staged && t.attempt == Some(a.(state := Complete)) && o == Outcome(true, true, Some(Complete), None)
                && t.visible.Some? && t.visible.value.(payload := Payload([], [], false)) ==
                   Snapshot(f.revision, f.observedAt, f.barrier, f.truncated, Payload([], [], false)))
            || exists error :: Dropped(s, t, o, f.revision, error)
  {
    var (t, o) := Finish(codec, a, staged, s.visible, f, rows, limits);
    var assembled := Assemble(codec, rows, f, limits);
    assert WithoutRevision(staged, a.highest) == map[];
    if assembled.Err? { assert Dropped(s, t, o, f.revision, assembled.error); }
  }

  // Given what the completion query answers.
  lemma PartArrivesWith(codec: Codec, s: Rows, stored: Option<Attempt>, a: Attempt, before: map<PartKey, Bytes>, f: Frame, raw: Bytes,
      limits: Limits, rows: seq<PartRow>)
    requires Stageable(codec, a, before, s.visible) && f.PartFrame? && f.revision == a.highest && Matches(f, a)
    requires codec.frame(raw) == Some(f) && 0 <= f.index < f.count && |raw| <= MAX_ENVELOPE_BYTES
    requires PartKey(f.revision, f.index) !in before
    ensures var (t, o) := StagePartWith(codec, stored, a, before, s.visible, f, raw, limits, rows);
            Arrives(codec, s, t, o, f, raw, limits, before)
  {
    var staged := before[PartKey(f.revision, f.index) := raw];
    var next := a.(received := a.received + 1, bytes := a.bytes + |raw|);
    AddPart(codec, a, before, s.visible, f, raw);
    NothingLeft(staged, a.highest);
    if (limits.maxRevisionBytes <= 0 || next.bytes <= limits.maxRevisionBytes) && next.received == next.partCount {
      LastArrives(codec, s, next, staged, f, rows, limits);
    }
  }

  lemma NothingLeft(parts: map<PartKey, Bytes>, revision: int)
    requires forall k :: k in parts ==> k.revision == revision
    ensures WithoutRevision(parts, revision) == map[]
  {
  }

  lemma PartArrives(codec: Codec, s: Rows, stored: Option<Attempt>, a: Attempt, before: map<PartKey, Bytes>, f: Frame, raw: Bytes,
      limits: Limits)
    requires Stageable(codec, a, before, s.visible) && f.PartFrame? && f.revision == a.highest && Matches(f, a)
    requires codec.frame(raw) == Some(f) && 0 <= f.index < f.count && |raw| <= MAX_ENVELOPE_BYTES
    requires PartKey(f.revision, f.index) !in before
    ensures var (t, o) := StagePart(codec, stored, a, before, s.visible, f, raw, limits);
            Arrives(codec, s, t, o, f, raw, limits, before)
  {
    PartArrivesWith(codec, s, stored, a, before, f, raw, limits, CompletionRows(before, f, raw));
  }

  // -- Every delivery --------------------------------------------------------------------------

  // A strict frame of the attempt's own revision.
  ghost predicate SameVerdict(codec: Codec, s: Rows, t: Rows, o: Outcome, f: Frame, raw: Bytes, limits: Limits)
    requires s.attempt.Some?
  {
    var a := s.attempt.value;
    var staged := f.PartFrame? && PartKey(f.revision, f.index) in s.parts;
    var same := staged && s.parts[PartKey(f.revision, f.index)] == raw;
    match a.state
    case Rejected => Ignored(s, t, o, RevisionStale)
    case Overflow => Ignored(s, t, o, RevisionStale)
    case Complete => if same then Known(s, t, o) else Ignored(s, t, o, RevisionConflict)
    case Staging =>
      if same then Known(s, t, o)
      else if staged || f.OverflowFrame? then Dropped(s, t, o, f.revision, RevisionConflict)
      else if !Fits(f, a) then Dropped(s, t, o, f.revision, FrameInvalid)
      else f.count >= 0 && Arrives(codec, s, t, o, f, raw, limits, s.parts)
  }

  // A strict frame of a newer revision, or the first one.
  ghost predicate NewVerdict(codec: Codec, s: Rows, t: Rows, o: Outcome, f: Frame, raw: Bytes, limits: Limits) {
    if f.PartFrame? then f.count >= 0 && Arrives(codec, s, t, o, f, raw, limits, map[])
    else
      && t.attempt.Some? && t.attempt.value.highest == f.revision && t.attempt.value.state == Overflow
      && t.attempt.value.groupCount == f.groupCount && t.attempt.value.observedAt == f.observedAt && t.attempt.value.barrier == f.barrier
      && t.parts == map[] && t.visible == s.visible && o.accepted && !o.published && o.state == Some(Overflow) && o.error == None
  }

  ghost predicate StrictVerdict(codec: Codec, s: Rows, t: Rows, o: Outcome, f: Frame, raw: Bytes, limits: Limits) {
    if s.attempt.Some? && f.revision < s.attempt.value.highest then Ignored(s, t, o, RevisionStale)
    else if s.attempt.Some? && f.revision == s.attempt.value.highest then SameVerdict(codec, s, t, o, f, raw, limits)
    else NewVerdict(codec, s, t, o, f, raw, limits)
  }

  // A frame of a known revision that cannot be used. A revision that was not known is stored as rejected now.
  ghost predicate BrokenVerdict(s: Rows, t: Rows, o: Outcome, revision: int, cause: IngestError, now: int) {
    if s.attempt.Some? && revision < s.attempt.value.highest then Ignored(s, t, o, RevisionStale)
    else if s.attempt.Some? && revision == s.attempt.value.highest && s.attempt.value.state == Complete
    then Ignored(s, t, o, RevisionConflict)
    else if s.attempt.Some? && revision == s.attempt.value.highest && s.attempt.value.state != Staging
    then Ignored(s, t, o, RevisionStale)
    else
      && Dropped(s, t, o, revision, cause)
      && (s.attempt.None? || revision > s.attempt.value.highest ==> t.attempt == Some(Attempt(revision, Rejected, now, 0, 0, 0, 0, false, 0)))
  }

  // The whole table, for every state that can be reached and every byte string.
  lemma IngestVerdict(codec: Codec, s: Rows, raw: Bytes, limits: Limits, now: int)
    requires Inv(codec, s) && SaneLimits(limits)
    ensures var (t, o) := Ingest(codec, s, raw, limits, now);
            var revision := codec.revisionField(raw);
            if |raw| == 0 || |raw| > MAX_ENVELOPE_BYTES || revision.None? || revision.value <= 0
            then t == s && o == Outcome(false, false, None, Some(FrameInvalid))
            else if !codec.wellFormed(raw) then BrokenVerdict(s, t, o, revision.value, FrameInvalid, now)
            else match DecodeStrict(codec, raw, limits)
              case Err(cause) => BrokenVerdict(s, t, o, revision.value, cause, now)
              case Ok(f) => StrictVerdict(codec, s, t, o, f, raw, limits)
  {
    var envelope := DecodeEnvelope(codec, raw);
    if envelope.ok && DecodeStrict(codec, raw, limits).Ok? {
      StageVerdict(codec, s, DecodeStrict(codec, raw, limits).value, raw, limits);
    } else if envelope.revision > 0 && s.attempt.Some? {
      if s.attempt.value.state == Staging { assert WithoutRevision(s.parts, s.attempt.value.highest) == map[]; }
    }
  }

  lemma StageVerdict(codec: Codec, s: Rows, f: Frame, raw: Bytes, limits: Limits)
    requires Inv(codec, s) && SaneLimits(limits)
    requires codec.frame(raw) == Some(f) && FrameError(codec, f, |raw|, limits) == None && |raw| <= MAX_ENVELOPE_BYTES
    ensures var (t, o) := StageFrame(codec, s, f, raw, limits); StrictVerdict(codec, s, t, o, f, raw, limits)
  {
    if s.attempt.None? || f.revision > s.attempt.value.highest {
      if f.PartFrame? {
        var started := NewAttempt(f);
        StagedBytesNone(f.revision, f.count);
        PartArrives(codec, s, if s.attempt.None? then Some(started) else s.attempt, started, map[], f, raw, limits);
      }
    } else {
      var a := s.attempt.value;
      if f.revision == a.highest && a.state == Staging {
        assert WithoutRevision(s.parts, a.highest) == map[];
        if f.PartFrame? && PartKey(f.revision, f.index) !in s.parts && Matches(f, a) {
          PartArrives(codec, s, s.attempt, a, s.parts, f, raw, limits);
        }
      }
    }
  }

  // -- What a refusal means later ----------------------------------------------------------------

  // A revision that was rejected is never published.
  lemma NeverPublished(codec: Codec, s: Rows, t: Rows, o: Outcome, revision: int, error: IngestError, messages: seq<Message>)
    requires Inv(codec, t) && Dropped(s, t, o, revision, error)
    requires forall i :: 0 <= i < |messages| ==> SaneLimits(messages[i].limits)
    ensures revision !in Published(codec, t, messages)
  {
    RunSafety(codec, t, messages);
    var ps := Published(codec, t, messages);
    assert forall i :: 0 <= i < |ps| ==> Admissible(t, ps[i]);
  }

  // So a part that contradicts a staged one ends its revision for good.
  lemma ConflictEnds(codec: Codec, s: Rows, raw: Bytes, limits: Limits, now: int, f: Frame, messages: seq<Message>)
    requires Inv(codec, s) && SaneLimits(limits) && s.attempt.Some? && s.attempt.value.state == Staging
    requires DecodeEnvelope(codec, raw).ok && DecodeStrict(codec, raw, limits) == Ok(f)
    requires f.PartFrame? && f.revision == s.attempt.value.highest
    requires PartKey(f.revision, f.index) in s.parts && s.parts[PartKey(f.revision, f.index)] != raw
    requires forall i :: 0 <= i < |messages| ==> SaneLimits(messages[i].limits)
    ensures var (t, o) := Ingest(codec, s, raw, limits, now);
            Dropped(s, t, o, f.revision, RevisionConflict) && f.revision !in Published(codec, t, messages)
  {
    var (t, o) := Ingest(codec, s, raw, limits, now);
    IngestVerdict(codec, s, raw, limits, now);
    IngestKeepsInv(codec, s, raw, limits, now);
    NeverPublished(codec, s, t, o, f.revision, RevisionConflict, messages);
  }

  // -- Which frames are strict -----------------------------------------------------------------

  // Every limit a frame of this size must meet.
  ghost predicate MeetsLimits(codec: Codec, f: Frame, size: int, limits: Limits) {
    && f.revision > 0 && f.observedAt != 0 && f.barrier >= 0 && (limits.maxRevisionBytes <= 0 || size <= limits.maxRevisionBytes)
    && (f.OverflowFrame? ==> f.groupCount > 0)
    && (f.PartFrame? ==>
          && 0 <= f.index < f.count && (limits.maxPartCount <= 0 || f.count <= limits.maxPartCount)
          && (limits.maxPartBytes <= 0 || size <= limits.maxPartBytes)
          && (limits.maxAggregateGroups <= 0 || |f.aggregates| <= limits.maxAggregateGroups) && |f.details| <= limits.maxDetails
          && (forall a :: a in f.aggregates ==> Groupable(codec, a, limits))
          && (forall d :: d in f.details ==> Listable(codec, d, limits)))
  }

  predicate Groupable(codec: Codec, a: Aggregate, limits: Limits) {
    && a.count >= 0 && (a.status == "accounted" || a.status == "unaccounted")
    && TextFits(codec, a.credential, limits) && TextFits(codec, a.model, limits)
  }

  predicate Listable(codec: Codec, d: Detail, limits: Limits) {
    && d.startedAt != 0 && TextFits(codec, d.requestId, limits) && TextFits(codec, d.credential, limits)
    && TextFits(codec, d.model, limits) && TextFits(codec, d.requestKind, limits)
  }

  predicate TextFits(codec: Codec, text: string, limits: Limits) {
    !codec.blank(text) && (limits.maxStringBytes <= 0 || |text| <= limits.maxStringBytes)
  }

  lemma StrictExactly(codec: Codec, raw: Bytes, limits: Limits)
    ensures DecodeStrict(codec, raw, limits).Ok? <==> codec.frame(raw).Some? && MeetsLimits(codec, codec.frame(raw).value, |raw|, limits)
  {
    if codec.frame(raw).Some? && codec.frame(raw).value.PartFrame? {
      var f := codec.frame(raw).value;
      assert forall i :: 0 <= i < |f.aggregates| ==> f.aggregates[i] in f.aggregates;
      assert forall i :: 0 <= i < |f.details| ==> f.details[i] in f.details;
    }
  }
}
