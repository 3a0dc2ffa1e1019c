/** The parts of one new revision may be delivered in any order and any number of times: what is
    stored and what is published depend only on which parts arrived. */
module InFlightConfluence {
  import opened Wrappers
  import opened InFlightFrames
  import opened InFlightIngest
  import opened InFlightRuns

  // raw is, under these limits, a valid encoding of part i of the revision `first` belongs to.
  ghost predicate IsPart(codec: Codec, raw: Bytes, i: int, first: Frame, limits: Limits)
    requires first.PartFrame?
  {
    && DecodeEnvelope(codec, raw).ok
    && var r := DecodeStrict(codec, raw, limits);
       r.Ok? && SameRevision(r.value, first) && r.value.index == i
  }

  // raws[0], raws[1], ... are the parts of one revision that is new to s.
  ghost predicate Family(codec: Codec, s: Rows, raws: seq<Bytes>, first: Frame, limits: Limits) {
    && Inv(codec, s) && SaneLimits(limits)
    && first.PartFrame? && 0 < first.count == |raws|
    && (forall i :: 0 <= i < |raws| ==> IsPart(codec, raws[i], i, first, limits))
    && (s.attempt.Some? ==> s.attempt.value.highest < first.revision)
  }

  function Keys(revision: int, arrived: set<int>): set<PartKey> {
    set i | i in arrived :: PartKey(revision, i)
  }

  // The part rows after exactly the parts in arrived were stored.
  function Stored(raws: seq<Bytes>, revision: int, arrived: set<int>): (parts: map<PartKey, Bytes>)
    requires forall i :: i in arrived ==> 0 <= i < |raws|
    ensures parts.Keys == Keys(revision, arrived)
  {
    map k | k in Keys(revision, arrived) :: raws[k.index]
  }

  function AllRows(raws: seq<Bytes>): (rows: seq<PartRow>)
    ensures |rows| == |raws| && forall i :: 0 <= i < |raws| ==> rows[i] == PartRow(i, raws[i])
  {
    seq(|raws|, i requires 0 <= i < |raws| => PartRow(i, raws[i]))
  }

  lemma FamilyRowsAreGood(codec: Codec, s: Rows, raws: seq<Bytes>, first: Frame, limits: Limits)
    requires Family(codec, s, raws, first, limits)
    ensures forall i :: 0 <= i < |raws| ==> GoodRow(codec, AllRows(raws), i, first, limits)
  {
    forall i | 0 <= i < |raws| ensures GoodRow(codec, AllRows(raws), i, first, limits) {
      assert IsPart(codec, raws[i], i, first, limits);
    }
  }

  // The payload of the revision, whatever the delivery order: its parts in index order.
  ghost function WholePayload(codec: Codec, s: Rows, raws: seq<Bytes>, first: Frame, limits: Limits): Payload
    requires Family(codec, s, raws, first, limits)
  {
    FamilyRowsAreGood(codec, s, raws, first, limits);
    Concatenated(codec, AllRows(raws), |raws|, first, limits)
  }

  // What is stored and visible once these parts were staged, at least one of them.
  ghost function Level(codec: Codec, parts: map<PartKey, Bytes>, visible: Option<Snapshot>, first: Frame, payload: Payload,
      limits: Limits): Rows
    requires first.PartFrame? && first.count >= 0
  {
    var a := NewAttempt(first);
    var bytes := StagedBytes(parts, first.revision, first.count);
    if limits.maxRevisionBytes > 0 && bytes > limits.maxRevisionBytes then Rows(Some(RejectedAttempt(a)), map[], visible)
    else if |parts| != first.count then Rows(Some(a.(received := |parts|, bytes := bytes)), parts, visible)
    else FinishedWith(codec, a, parts, visible, first, payload, limits).0
  }

  // The rows once exactly the parts in arrived were delivered, in closed form.
  ghost function After(codec: Codec, s: Rows, raws: seq<Bytes>, first: Frame, limits: Limits, arrived: set<int>): Rows
    requires Family(codec, s, raws, first, limits) && forall i :: i in arrived ==> 0 <= i < |raws|
  {
    if arrived == {} then s
    else Level(codec, Stored(raws, first.revision, arrived), s.visible, first, WholePayload(codec, s, raws, first, limits), limits)
  }

  lemma {:induction false} KeysSize(revision: int, arrived: set<int>)
    ensures |Keys(revision, arrived)| == |arrived|
  {
    if arrived == {} {
      assert Keys(revision, arrived) == {};
    } else {
      var i := AnyMember(arrived);
      assert Keys(revision, arrived) == Keys(revision, arrived - {i}) + {PartKey(revision, i)};
      KeysSize(revision, arrived - {i});
    }
  }

  lemma StoredAdds(raws: seq<Bytes>, revision: int, arrived: set<int>, i: int)
    requires 0 <= i < |raws| && i !in arrived && forall j :: j in arrived ==> 0 <= j < |raws|
    ensures PartKey(revision, i) !in Stored(raws, revision, arrived)
    ensures Stored(raws, revision, arrived + {i}) == Stored(raws, revision, arrived)[PartKey(revision, i) := raws[i]]
  {
    assert Keys(revision, arrived + {i}) == Keys(revision, arrived) + {PartKey(revision, i)};
  }

  lemma StoredNext(raws: seq<Bytes>, revision: int, arrived: set<int>, i: int)
    requires 0 <= i < |raws| && i !in arrived && forall j :: j in arrived ==> 0 <= j < |raws|
    ensures PartKey(revision, i) !in Stored(raws, revision, arrived)
    ensures Stored(raws, revision, arrived + {i}) == Stored(raws, revision, arrived)[PartKey(revision, i) := raws[i]]
    ensures StagedBytes(Stored(raws, revision, arrived + {i}), revision, |raws|) ==
            StagedBytes(Stored(raws, revision, arrived), revision, |raws|) + |raws[i]|
    ensures |Stored(raws, revision, arrived + {i})| == |Stored(raws, revision, arrived)| + 1
  {
    StoredAdds(raws, revision, arrived, i);
    var parts := Stored(raws, revision, arrived);
    StagedBytesAdd(parts, revision, |raws|, i, raws[i]);
    assert |parts[PartKey(revision, i) := raws[i]]| == |parts| + 1;
  }

  // The row in memory when the next part is staged, while nothing has gone wrong yet.
  function Current(first: Frame, parts: map<PartKey, Bytes>): Attempt
    requires first.PartFrame? && first.count >= 0
  {
    NewAttempt(first).(received := |parts|, bytes := StagedBytes(parts, first.revision, first.count))
  }

  lemma {:induction false} StoredStageable(codec: Codec, s: Rows, raws: seq<Bytes>, first: Frame, limits: Limits, arrived: set<int>)
    requires Family(codec, s, raws, first, limits) && forall i :: i in arrived ==> 0 <= i < |raws|
    requires |Stored(raws, first.revision, arrived)| < |raws|
    ensures Stageable(codec, Current(first, Stored(raws, first.revision, arrived)), Stored(raws, first.revision, arrived), s.visible)
    ensures forall k ::
        k in Stored(raws, first.revision, arrived)
        ==> DecodeStrict(codec, Stored(raws, first.revision, arrived)[k], limits).Ok?
  {
    assert IsPart(codec, raws[0], 0, first, limits);
    var parts := Stored(raws, first.revision, arrived);
    var a := Current(first, parts);
    forall k | k in parts ensures PartOf(codec, a, k, parts[k]) && DecodeStrict(codec, parts[k], limits).Ok? {
      assert IsPart(codec, raws[k.index], k.index, first, limits);
    }
  }

  lemma {:induction false} ConcatenatedAlike(codec: Codec, rows: seq<PartRow>, n: nat, f: Frame, first: Frame, limits: Limits)
    requires first.PartFrame? && f.PartFrame? && SameRevision(f, first) && n <= |rows|
    requires forall i :: 0 <= i < n ==> GoodRow(codec, rows, i, f, limits) && GoodRow(codec, rows, i, first, limits)
    ensures Concatenated(codec, rows, n, f, limits) == Concatenated(codec, rows, n, first, limits)
  {
    if n > 0 { ConcatenatedAlike(codec, rows, n - 1, f, first, limits); }
  }

  lemma InOrderStored(raws: seq<Bytes>, revision: int, arrived: set<int>)
    requires (forall i :: i in arrived ==> 0 <= i < |raws|) && Stored(raws, revision, arrived).Keys == AllKeys(revision, |raws|)
    ensures InOrder(Stored(raws, revision, arrived), revision, |raws|) == AllRows(raws)
  {
    assert forall i :: 0 <= i < |raws| ==> PartKey(revision, i) in AllKeys(revision, |raws|);
  }

  // Staging a part that had not arrived reaches the next level, given what completion would do.
  lemma {:induction false} StageLevel(codec: Codec, stored: Option<Attempt>, parts: map<PartKey, Bytes>, visible: Option<Snapshot>,
                                      first: Frame, f: Frame, raw: Bytes, limits: Limits, rows: seq<PartRow>, payload: Payload)
    requires first.PartFrame? && SameRevision(f, first) && 0 <= f.index < f.count && PartKey(f.revision, f.index) !in parts
    requires Stageable(codec, Current(first, parts), parts, visible)
    requires codec.frame(raw) == Some(f) && |raw| <= MAX_ENVELOPE_BYTES
    requires var staged := parts[PartKey(f.revision, f.index) := raw];
             var bytes := StagedBytes(staged, first.revision, first.count);
             |staged| == first.count && (limits.maxRevisionBytes > 0 ==> bytes <= limits.maxRevisionBytes) ==>
               StagePartWith(codec, stored, Current(first, parts), parts, visible, f, raw, limits, rows).0 ==
               FinishedWith(codec, NewAttempt(first), staged, visible, first, payload, limits).0
    ensures StagePartWith(codec, stored, Current(first, parts), parts, visible, f, raw, limits, rows).0 ==
            Level(codec, parts[PartKey(f.revision, f.index) := raw], visible, first, payload, limits)
  {
    var staged := parts[PartKey(f.revision, f.index) := raw];
    AddPart(codec, Current(first, parts), parts, visible, f, raw);
    if limits.maxRevisionBytes > 0 && StagedBytes(staged, first.revision, first.count) > limits.maxRevisionBytes {
      assert WithoutRevision(staged, first.revision) == map[];
    }
  }

  lemma FinishedAlike(codec: Codec, a: Attempt, staged: map<PartKey, Bytes>, visible: Option<Snapshot>, f: Frame,
      first: Frame, payload: Payload, limits: Limits)
    requires first.PartFrame? && SameRevision(f, first) && first.count >= 0
    requires RejectedAttempt(a) == RejectedAttempt(NewAttempt(first)) && a.(state := Complete, received := 0, bytes := 0)
        == NewAttempt(first).(state := Complete)
    ensures FinishedWith(codec, a, staged, visible, f, payload, limits) == FinishedWith(codec, NewAttempt(first), staged,
        visible, first, payload, limits)
  {
  }

  lemma {:induction false} CompletesAlike(codec: Codec, stored: Option<Attempt>, parts: map<PartKey, Bytes>, visible: Option<Snapshot>,
                                          first: Frame, f: Frame, raw: Bytes, limits: Limits)
    requires first.PartFrame? && first.count >= 0 && LastPart(codec, Current(first, parts), parts, visible, f, raw,
        limits) && SameRevision(f, first)
    requires var staged := parts[PartKey(f.revision, f.index) := raw];
             && staged.Keys == AllKeys(first.revision, first.count)
             && forall i :: 0 <= i < first.count ==> GoodRow(codec, InOrder(staged, first.revision, first.count), i, first, limits)
    ensures var staged := parts[PartKey(f.revision, f.index) := raw];
            StagePart(codec, stored, Current(first, parts), parts, visible, f, raw, limits) ==
            FinishedWith(codec, NewAttempt(first), staged, visible, first,
                         Concatenated(codec, InOrder(staged, first.revision, first.count), first.count, first, limits), limits)
  {
    var staged := parts[PartKey(f.revision, f.index) := raw];
    var rows := InOrder(staged, first.revision, first.count);
    LastPartCompletes(codec, stored, Current(first, parts), parts, visible, f, raw, limits);
    ConcatenatedAlike(codec, rows, first.count, f, first, limits);
    FinishedAlike(codec, Current(first, parts), staged, visible, f, first, Concatenated(codec, rows, first.count, first, limits), limits);
  }

  lemma {:induction false} FamilyLastPart(codec: Codec, s: Rows, raws: seq<Bytes>, first: Frame, limits: Limits, arrived: set<int>, i: int)
    requires Family(codec, s, raws, first, limits) && forall j :: j in arrived ==> 0 <= j < |raws|
    requires 0 <= i < |raws| && i !in arrived && IsPart(codec, raws[i], i, first, limits)
    requires |Stored(raws, first.revision, arrived)| + 1 == |raws|
    requires limits.maxRevisionBytes > 0
        ==> StagedBytes(Stored(raws, first.revision, arrived), first.revision, |raws|) + |raws[i]| <= limits.maxRevisionBytes
    ensures var parts := Stored(raws, first.revision, arrived);
            var f := DecodeStrict(codec, raws[i], limits).value;
            && LastPart(codec, Current(first, parts), parts, s.visible, f, raws[i], limits)
            && parts[PartKey(f.revision, f.index) := raws[i]] == Stored(raws, first.revision, arrived + {i})
  {
    StoredNext(raws, first.revision, arrived, i);
    StoredStageable(codec, s, raws, first, limits, arrived);
  }

  // The last part of a revision whose parts, in index order, will be the rows all.
  ghost predicate Ready(codec: Codec, parts: map<PartKey, Bytes>, staged: map<PartKey, Bytes>, visible: Option<Snapshot>,
      first: Frame, f: Frame,
                        raw: Bytes, limits: Limits, all: seq<PartRow>) {
    && first.PartFrame? && first.count >= 0 && LastPart(codec, Current(first, parts), parts, visible, f, raw, limits)
        && SameRevision(f, first)
    && parts[PartKey(f.revision, f.index) := raw] == staged && staged.Keys == AllKeys(first.revision, first.count)
    && InOrder(staged, first.revision, first.count) == all && |all| == first.count
    && forall i :: 0 <= i < first.count ==> GoodRow(codec, all, i, first, limits)
  }

  lemma ReadyCompletes(codec: Codec, stored: Option<Attempt>, parts: map<PartKey, Bytes>, staged: map<PartKey, Bytes>,
      visible: Option<Snapshot>,
                       first: Frame, f: Frame, raw: Bytes, limits: Limits, all: seq<PartRow>)
    requires Ready(codec, parts, staged, visible, first, f, raw, limits, all)
    ensures StagePart(codec, stored, Current(first, parts), parts, visible, f, raw, limits) ==
            FinishedWith(codec, NewAttempt(first), staged, visible, first, Concatenated(codec, all, first.count, first, limits), limits)
  {
    CompletesAlike(codec, stored, parts, visible, first, f, raw, limits);
  }

  lemma {:induction false} FamilyReady(codec: Codec, s: Rows, raws: seq<Bytes>, first: Frame, limits: Limits,
      arrived: set<int>, i: int, f: Frame)
    requires Family(codec, s, raws, first, limits) && forall j :: j in arrived ==> 0 <= j < |raws|
    requires 0 <= i < |raws| && i !in arrived && IsPart(codec, raws[i], i, first, limits) && DecodeStrict(codec, raws[i], limits) == Ok(f)
    requires |Stored(raws, first.revision, arrived)| + 1 == |raws|
    requires limits.maxRevisionBytes > 0
        ==> StagedBytes(Stored(raws, first.revision, arrived), first.revision, |raws|) + |raws[i]| <= limits.maxRevisionBytes
    ensures Ready(codec, Stored(raws, first.revision, arrived), Stored(raws, first.revision, arrived + {i}), s.visible,
        first, f, raws[i], limits, AllRows(raws))
  {
    var parts := Stored(raws, first.revision, arrived);
    FamilyLastPart(codec, s, raws, first, limits, arrived, i);
    LastPartFills(codec, Current(first, parts), parts, s.visible, f, raws[i], limits);
    InOrderStored(raws, first.revision, arrived + {i});
    FamilyRowsAreGood(codec, s, raws, first, limits);
  }

  // What completion does for a family.
  lemma {:induction false} CompleteFamily(codec: Codec, s: Rows, raws: seq<Bytes>, first: Frame, limits: Limits, arrived: set<int>, i: int,
                                          stored: Option<Attempt>, f: Frame, parts: map<PartKey, Bytes>, staged: map<PartKey,
                                              Bytes>, payload: Payload)
    requires Family(codec, s, raws, first, limits) && forall j :: j in arrived ==> 0 <= j < |raws|
    requires 0 <= i < |raws| && i !in arrived && IsPart(codec, raws[i], i, first, limits) && DecodeStrict(codec, raws[i], limits) == Ok(f)
    requires parts == Stored(raws, first.revision, arrived) && staged == Stored(raws, first.revision, arrived + {i})
    requires payload == WholePayload(codec, s, raws, first, limits)
    requires |parts| + 1 == |raws|
        && (limits.maxRevisionBytes > 0 ==> StagedBytes(parts, first.revision, |raws|) + |raws[i]| <= limits.maxRevisionBytes)
    ensures StagePart(codec, stored, Current(first, parts), parts, s.visible, f, raws[i], limits) ==
            FinishedWith(codec, NewAttempt(first), staged, s.visible, first, payload, limits)
  {
    FamilyReady(codec, s, raws, first, limits, arrived, i, f);
    ReadyCompletes(codec, stored, parts, staged, s.visible, first, f, raws[i], limits, AllRows(raws));
  }

  // StageLevel, for a staged map under a name of its own.
  lemma {:induction false} StageReaches(codec: Codec, stored: Option<Attempt>, parts: map<PartKey, Bytes>, staged: map<PartKey, Bytes>,
                                        visible: Option<Snapshot>, first: Frame, f: Frame, raw: Bytes, limits: Limits, payload: Payload)
    requires first.PartFrame? && SameRevision(f, first) && 0 <= f.index < f.count && PartKey(f.revision, f.index) !in parts
    requires parts[PartKey(f.revision, f.index) := raw] == staged
    requires Stageable(codec, Current(first, parts), parts, visible) && codec.frame(raw) == Some(f) && |raw| <= MAX_ENVELOPE_BYTES
    requires (|staged| == first.count
              && (limits.maxRevisionBytes > 0 ==> StagedBytes(staged, first.revision, first.count) <= limits.maxRevisionBytes)) ==>
               StagePart(codec, stored, Current(first, parts), parts, visible, f, raw, limits) ==
               FinishedWith(codec, NewAttempt(first), staged, visible, first, payload, limits)
    ensures StagePart(codec, stored, Current(first, parts), parts, visible, f, raw, limits).0 == Level(codec, staged,
        visible, first, payload, limits)
  {
    StageLevel(codec, stored, parts, visible, first, f, raw, limits, CompletionRows(parts, f, raw), payload);
  }

  lemma {:induction false} StageNext(codec: Codec, s: Rows, raws: seq<Bytes>, first: Frame, limits: Limits, arrived: set<int>, i: int,
                                     stored: Option<Attempt>, f: Frame, parts: map<PartKey, Bytes>)
    requires Family(codec, s, raws, first, limits) && forall j :: j in arrived ==> 0 <= j < |raws|
    requires 0 <= i < |raws| && i !in arrived && IsPart(codec, raws[i], i, first, limits) && DecodeStrict(codec, raws[i], limits) == Ok(f)
    requires parts == Stored(raws, first.revision, arrived) && |parts| < |raws|
    ensures StagePart(codec, stored, Current(first, parts), parts, s.visible, f, raws[i], limits).0 == After(codec, s, raws,
        first, limits, arrived + {i})
  {
    var staged := Stored(raws, first.revision, arrived + {i});
    var payload := WholePayload(codec, s, raws, first, limits);
    StoredNext(raws, first.revision, arrived, i);
    StoredStageable(codec, s, raws, first, limits, arrived);
    if |parts| + 1 == |raws|
        && (limits.maxRevisionBytes > 0 ==> StagedBytes(parts, first.revision, |raws|) + |raws[i]| <= limits.maxRevisionBytes) {
      CompleteFamily(codec, s, raws, first, limits, arrived, i, stored, f, parts, staged, payload);
    }
    StageReaches(codec, stored, parts, staged, s.visible, first, f, raws[i], limits, payload);
  }

  lemma {:induction false} SumGrows(raws: seq<Bytes>, revision: int, arrived: set<int>, i: int)
    requires 0 <= i < |raws| && forall j :: j in arrived ==> 0 <= j < |raws|
    ensures StagedBytes(Stored(raws, revision, arrived), revision, |raws|) <= StagedBytes(Stored(raws, revision, arrived
        + {i}), revision, |raws|)
  {
    if i in arrived { assert arrived + {i} == arrived; } else { StoredNext(raws, revision, arrived, i); }
  }

  lemma {:induction false} AllArrived(raws: seq<Bytes>, revision: int, arrived: set<int>, i: int)
    requires 0 <= i < |raws| && forall j :: j in arrived ==> 0 <= j < |raws|
    requires |Stored(raws, revision, arrived)| == |raws|
    ensures i in arrived && arrived + {i} == arrived
  {
    var parts := Stored(raws, revision, arrived);
    assert forall k :: k in parts.Keys ==> k in AllKeys(revision, |raws|);
    SubsetOfSameSize(parts.Keys, AllKeys(revision, |raws|));
    assert PartKey(revision, i) in parts.Keys;
  }

  // A delivery that does not change the stored parts leaves every row as it was.
  lemma {:induction false} RedeliverLevel(codec: Codec, parts: map<PartKey, Bytes>, visible: Option<Snapshot>, first: Frame,
      payload: Payload,
                                          f: Frame, raw: Bytes, limits: Limits)
    requires first.PartFrame? && SameRevision(f, first) && first.count >= 0
    requires PartKey(f.revision, f.index) in parts && parts[PartKey(f.revision, f.index)] == raw
    ensures var before := Level(codec, parts, visible, first, payload, limits); StageFrame(codec, before, f, raw, limits).0 == before
  {
  }

  lemma {:induction false} RejectedLevel(codec: Codec, parts: map<PartKey, Bytes>, visible: Option<Snapshot>, first: Frame,
      payload: Payload,
                                         f: Frame, raw: Bytes, limits: Limits)
    requires first.PartFrame? && SameRevision(f, first) && first.count >= 0
    requires limits.maxRevisionBytes > 0 && StagedBytes(parts, first.revision, first.count) > limits.maxRevisionBytes
    ensures var before := Level(codec, parts, visible, first, payload, limits); StageFrame(codec, before, f, raw, limits).0 == before
  {
  }

  lemma IngestIsStage(codec: Codec, before: Rows, raw: Bytes, i: int, first: Frame, limits: Limits, now: int)
    requires first.PartFrame? && IsPart(codec, raw, i, first, limits)
    ensures Ingest(codec, before, raw, limits, now) == StageFrame(codec, before, DecodeStrict(codec, raw, limits).value, raw, limits)
  {
  }

  // One delivery, whatever arrived before, including a repeated one.
  lemma {:induction false} DeliverOne(codec: Codec, s: Rows, raws: seq<Bytes>, first: Frame, limits: Limits,
      arrived: set<int>, i: int, now: int)
    requires Family(codec, s, raws, first, limits) && forall j :: j in arrived ==> 0 <= j < |raws|
    requires 0 <= i < |raws|
    ensures Ingest(codec, After(codec, s, raws, first, limits, arrived), raws[i], limits, now).0 == After(codec, s, raws,
        first, limits, arrived + {i})
  {
    assert IsPart(codec, raws[i], i, first, limits);
    var f := DecodeStrict(codec, raws[i], limits).value;
    var parts := Stored(raws, first.revision, arrived);
    var payload := WholePayload(codec, s, raws, first, limits);
    IngestIsStage(codec, After(codec, s, raws, first, limits, arrived), raws[i], i, first, limits, now);
    if i in arrived {
      assert arrived + {i} == arrived;
      RedeliverLevel(codec, parts, s.visible, first, payload, f, raws[i], limits);
    } else if arrived == {} {
      DeliverFirst(codec, s, raws, first, limits, i);
    } else if limits.maxRevisionBytes > 0 && StagedBytes(parts, first.revision, |raws|) > limits.maxRevisionBytes {
      RejectedLevel(codec, parts, s.visible, first, payload, f, raws[i], limits);
      SumGrows(raws, first.revision, arrived, i);
    } else {
      StoredBelow(raws, first.revision, arrived);
      if |parts| == |raws| {
        AllArrived(raws, first.revision, arrived, i);
      } else {
        StageNext(codec, s, raws, first, limits, arrived, i, Some(Current(first, parts)), f, parts);
      }
    }
  }

  lemma {:induction false} DeliverFirst(codec: Codec, s: Rows, raws: seq<Bytes>, first: Frame, limits: Limits, i: int)
    requires Family(codec, s, raws, first, limits) && 0 <= i < |raws| && IsPart(codec, raws[i], i, first, limits)
    ensures StageFrame(codec, s, DecodeStrict(codec, raws[i], limits).value, raws[i], limits).0 == After(codec, s, raws, first, limits, {i})
  {
    var f := DecodeStrict(codec, raws[i], limits).value;
    assert Stored(raws, first.revision, {}) == map[];
    StagedBytesNone(first.revision, |raws|);
    assert Current(first, map[]) == NewAttempt(f);
    StageNext(codec, s, raws, first, limits, {}, i, if s.attempt.None? then Some(NewAttempt(f)) else s.attempt, f, map[]);
    assert {} + {i} == {i};
  }

  lemma {:induction false} StoredBelow(raws: seq<Bytes>, revision: int, arrived: set<int>)
    requires forall j :: j in arrived ==> 0 <= j < |raws|
    ensures |Stored(raws, revision, arrived)| <= |raws|
  {
    var parts := Stored(raws, revision, arrived);
    assert parts.Keys <= AllKeys(revision, |raws|);
    assert AllKeys(revision, |raws|) == parts.Keys + (AllKeys(revision, |raws|) - parts.Keys);
  }

  function Messages(raws: seq<Bytes>, limits: Limits, deliveries: seq<int>, times: seq<int>): (messages: seq<Message>)
    requires |times| == |deliveries| && forall i :: 0 <= i < |deliveries| ==> 0 <= deliveries[i] < |raws|
    ensures |messages| == |deliveries|
    ensures forall i :: 0 <= i < |messages| ==> messages[i] == Message(raws[deliveries[i]], limits, times[i])
  {
    seq(|deliveries|, i requires 0 <= i < |deliveries| => Message(raws[deliveries[i]], limits, times[i]))
  }

  function Arrived(deliveries: seq<int>): set<int> { set i | 0 <= i < |deliveries| :: deliveries[i] }

  lemma ArrivedNext(deliveries: seq<int>)
    requires deliveries != []
    ensures Arrived(deliveries) == {deliveries[0]} + Arrived(deliveries[1..])
  {
    var rest := deliveries[1..];
    assert forall j :: 0 < j < |deliveries| ==> deliveries[j] == rest[j - 1];
    assert forall j :: 0 <= j < |rest| ==> rest[j] == deliveries[j + 1];
  }

  lemma MessagesNext(raws: seq<Bytes>, limits: Limits, deliveries: seq<int>, times: seq<int>)
    requires |times| == |deliveries| > 0 && forall i :: 0 <= i < |deliveries| ==> 0 <= deliveries[i] < |raws|
    ensures Messages(raws, limits, deliveries, times)[1..] == Messages(raws, limits, deliveries[1..], times[1..])
  {
  }

  lemma {:induction false} DeliverAll(codec: Codec, s: Rows, raws: seq<Bytes>, first: Frame, limits: Limits,
      arrived: set<int>, deliveries: seq<int>, times: seq<int>)
    requires Family(codec, s, raws, first, limits) && forall j :: j in arrived ==> 0 <= j < |raws|
    requires |times| == |deliveries| && forall i :: 0 <= i < |deliveries| ==> 0 <= deliveries[i] < |raws|
    ensures Run(codec, After(codec, s, raws, first, limits, arrived), Messages(raws, limits, deliveries, times)) ==
            After(codec, s, raws, first, limits, arrived + Arrived(deliveries))
    decreases |deliveries|
  {
    if deliveries == [] {
      assert arrived + Arrived(deliveries) == arrived;
    } else {
      var i := deliveries[0];
      MessagesNext(raws, limits, deliveries, times);
      DeliverOne(codec, s, raws, first, limits, arrived, i, times[0]);
      DeliverAll(codec, s, raws, first, limits, arrived + {i}, deliveries[1..], times[1..]);
      ArrivedNext(deliveries);
      assert arrived + Arrived(deliveries) == arrived + {i} + Arrived(deliveries[1..]);
    }
  }

  // Confluence: two deliveries of the same parts, in any orders, with any repetitions and at any
  // times, leave the same attempt row, the same part rows and the same visible snapshot.
  lemma Confluence(codec: Codec, s: Rows, raws: seq<Bytes>, first: Frame, limits: Limits,
                   one: seq<int>, oneTimes: seq<int>, other: seq<int>, otherTimes: seq<int>)
    requires Family(codec, s, raws, first, limits)
    requires |oneTimes| == |one| && forall i :: 0 <= i < |one| ==> 0 <= one[i] < |raws|
    requires |otherTimes| == |other| && forall i :: 0 <= i < |other| ==> 0 <= other[i] < |raws|
    requires Arrived(one) == Arrived(other)
    ensures Run(codec, s, Messages(raws, limits, one, oneTimes)) == Run(codec, s, Messages(raws, limits, other, otherTimes))
  {
    assert {} + Arrived(one) == Arrived(one) && {} + Arrived(other) == Arrived(other);
    DeliverAll(codec, s, raws, first, limits, {}, one, oneTimes);
    DeliverAll(codec, s, raws, first, limits, {}, other, otherTimes);
  }

  // Once every part was delivered, the snapshot is published exactly when the parts fit the byte
  // limit and what they carry, part after part, is publishable; otherwise the revision is rejected.
  lemma WholeDelivery(codec: Codec, s: Rows, raws: seq<Bytes>, first: Frame, limits: Limits, deliveries: seq<int>, times: seq<int>)
    requires Family(codec, s, raws, first, limits)
    requires |times| == |deliveries| && forall i :: 0 <= i < |deliveries| ==> 0 <= deliveries[i] < |raws|
    requires forall i :: 0 <= i < |raws| ==> i in Arrived(deliveries)
    ensures forall i :: 0 <= i < |raws| ==> Carries(codec, raws[i])
    ensures var t := Run(codec, s, Messages(raws, limits, deliveries, times));
            var frames := Carried(codec, raws);
            var payload := Payload(Flat(AggregatesOf(frames)), Flat(DetailsOf(frames)), first.truncated);
            var fits := limits.maxRevisionBytes <= 0 || |Flat(raws)| <= limits.maxRevisionBytes;
            && t.attempt.Some? && t.attempt.value.highest == first.revision
            && if fits && PublishablePayload(codec, payload, limits)
               then t.attempt.value.state == Complete &&
                    t.visible == Some(Snapshot(first.revision, first.observedAt, first.barrier, first.truncated, payload))
               else t.attempt.value.state == Rejected && t.parts == map[] && t.visible == s.visible
  {
    var arrived := Arrived(deliveries);
    assert {} + arrived == arrived;
    DeliverAll(codec, s, raws, first, limits, {}, deliveries, times);
    StoredWhole(raws, first.revision, arrived);
    assert 0 in arrived;
    PayloadAccepted(codec, WholePayload(codec, s, raws, first, limits), limits);
    WholeFlat(codec, s, raws, first, limits);
  }

  // The payload and its size, told from the frames and the bytes.
  lemma WholeFlat(codec: Codec, s: Rows, raws: seq<Bytes>, first: Frame, limits: Limits)
    requires Family(codec, s, raws, first, limits)
    ensures forall i :: 0 <= i < |raws| ==> Carries(codec, raws[i])
    ensures var frames := Carried(codec, raws);
            WholePayload(codec, s, raws, first, limits) == Payload(Flat(AggregatesOf(frames)), Flat(DetailsOf(frames)), first.truncated)
    ensures EncodedBytes(AllRows(raws)) == |Flat(raws)|
  {
    var rows := AllRows(raws);
    FamilyRowsAreGood(codec, s, raws, first, limits);
    ConcatenatedFlat(codec, rows, |raws|, first, limits);
    EncodedFlat(rows);
    assert Payloads(rows) == raws && raws[..|raws|] == raws;
  }

  lemma {:induction false} StoredWhole(raws: seq<Bytes>, revision: int, arrived: set<int>)
    requires forall i :: i in arrived <==> 0 <= i < |raws|
    ensures |Stored(raws, revision, arrived)| == |raws|
    ensures StagedBytes(Stored(raws, revision, arrived), revision, |raws|) == EncodedBytes(AllRows(raws))
  {
    var parts := Stored(raws, revision, arrived);
    assert parts.Keys == AllKeys(revision, |raws|);
    InOrderStored(raws, revision, arrived);
    EncodedIsStaged(parts, revision, |raws|, |raws|);
    assert AllRows(raws)[..|raws|] == AllRows(raws);
  }
}
