/** In-flight snapshot frames: what one frame must satisfy on its own, and how the staged
    parts of one revision are assembled and checked before they become visible. */
module InFlightFrames {
  import opened Wrappers

  type Bytes = seq<bv8>

  const MAX_ENVELOPE_BYTES: int := 16 * 1024 * 1024

  datatype IngestError = FrameInvalid | RevisionStale | RevisionConflict | RevisionOverflow

  datatype Aggregate = Aggregate(credential: string, model: string, status: string, count: int)

  datatype Detail = Detail(requestId: string, credential: string, model: string, requestKind: string, startedAt: int)

  // Times are instants; the zero instant is 0.
  datatype Frame =
    | PartFrame(revision: int, observedAt: int, barrier: int, index: int, count: int, truncated: bool,
                aggregates: seq<Aggregate>, details: seq<Detail>)
    | OverflowFrame(revision: int, observedAt: int, barrier: int, groupCount: int)

  datatype Limits = Limits(maxPartBytes: int, maxPartCount: int, maxRevisionBytes: int,
                           maxAggregateGroups: int, maxDetails: int, maxStringBytes: int)

  // JSON decoding is a deterministic function of the bytes. `revisionField` is the revision a
  // lenient reading finds, `wellFormed` says whether that reading met no error, `frame` is the
  // strict reading before any limit is applied, and `blank` is strings.TrimSpace(s) == "".
  datatype Codec = Codec(revisionField: Bytes -> Option<int>, wellFormed: Bytes -> bool,
                         frame: Bytes -> Option<Frame>, blank: string -> bool)

  // A revision of 0 means that no usable revision was found.
  datatype Envelope = Envelope(revision: int, ok: bool)

  function DecodeEnvelope(codec: Codec, raw: Bytes): (e: Envelope)
    ensures e.ok ==> e.revision > 0 && 0 < |raw| <= MAX_ENVELOPE_BYTES
  {
    if |raw| == 0 || |raw| > MAX_ENVELOPE_BYTES then Envelope(0, false)
    else match codec.revisionField(raw)
      case None => Envelope(0, false)
      case Some(revision) =>
        if revision <= 0 then Envelope(0, false) else Envelope(revision, codec.wellFormed(raw))
  }

  predicate ValidText(codec: Codec, s: string, limits: Limits) {
    !codec.blank(s) && (limits.maxStringBytes <= 0 || |s| <= limits.maxStringBytes)
  }

  predicate ValidAggregateText(codec: Codec, a: Aggregate, limits: Limits) {
    && ValidText(codec, a.credential, limits)
    && ValidText(codec, a.model, limits)
    && (a.status == "accounted" || a.status == "unaccounted")
  }

  predicate ValidDetail(codec: Codec, d: Detail, limits: Limits) {
    && ValidText(codec, d.requestId, limits)
    && ValidText(codec, d.credential, limits)
    && ValidText(codec, d.model, limits)
    && ValidText(codec, d.requestKind, limits)
    && d.startedAt != 0
  }

  function FrameError(codec: Codec, f: Frame, size: int, limits: Limits): Option<IngestError> {
    if f.revision <= 0 || f.observedAt == 0 || f.barrier < 0 then Some(FrameInvalid)
    else if limits.maxRevisionBytes > 0 && size > limits.maxRevisionBytes then Some(RevisionOverflow)
    else match f
      case OverflowFrame(_, _, _, groupCount) => if groupCount <= 0 then Some(FrameInvalid) else None
      case PartFrame(_, _, _, index, count, _, aggregates, details) =>
        if limits.maxPartBytes > 0 && size > limits.maxPartBytes then Some(FrameInvalid)
        else if count <= 0 || index < 0 || index >= count || (limits.maxPartCount > 0 && count > limits.maxPartCount)
        then Some(FrameInvalid)
        else if (limits.maxAggregateGroups > 0 && |aggregates| > limits.maxAggregateGroups) || |details| > limits.maxDetails
        then Some(FrameInvalid)
        else if exists i :: 0 <= i < |aggregates| && !(ValidAggregateText(codec, aggregates[i], limits) && aggregates[i].count >= 0)
        then Some(FrameInvalid)
        else if exists i :: 0 <= i < |details| && !ValidDetail(codec, details[i], limits)
        then Some(FrameInvalid)
        else None
  }

  // The strict decoder: the frame if it also passes every limit.
  function DecodeStrict(codec: Codec, raw: Bytes, limits: Limits): (r: Result<Frame, IngestError>)
    ensures r.Ok? ==> codec.frame(raw) == Some(r.value) && FrameError(codec, r.value, |raw|, limits) == None
  {
    match codec.frame(raw)
    case None => Err(FrameInvalid)
    case Some(f) =>
      match FrameError(codec, f, |raw|, limits)
      case Some(e) => Err(e)
      case None => Ok(f)
  }

  datatype Payload = Payload(aggregates: seq<Aggregate>, details: seq<Detail>, truncated: bool)

  function CountSum(aggregates: seq<Aggregate>): (sum: int)
    ensures (forall i :: 0 <= i < |aggregates| ==> aggregates[i].count >= 0) ==> sum >= 0
  {
    if aggregates == [] then 0
    else
      var last := |aggregates| - 1;
      assert forall i :: 0 <= i < last ==> aggregates[..last][i] == aggregates[i];
      CountSum(aggregates[..last]) + aggregates[last].count
  }

  predicate SameKey(a: Aggregate, b: Aggregate) {
    a.credential == b.credential && a.model == b.model && a.status == b.status
  }

  predicate Repeats(aggregates: seq<Aggregate>, i: nat)
    requires i < |aggregates|
  {
    exists j :: 0 <= j < i && SameKey(aggregates[j], aggregates[i])
  }

  // The first thing wrong with the aggregates, reading left to right, without any bookkeeping.
  function AggregatesError(codec: Codec, aggregates: seq<Aggregate>, limits: Limits): Option<IngestError> {
    if aggregates == [] then None
    else
      var last := |aggregates| - 1;
      var before := AggregatesError(codec, aggregates[..last], limits);
      if before.Some? then before
      else if !ValidAggregateText(codec, aggregates[last], limits) || Repeats(aggregates, last) then Some(FrameInvalid)
      else if aggregates[last].count < 0 || CountSum(aggregates) > MAX_INT64 then Some(RevisionOverflow)
      else None
  }

  function PayloadError(codec: Codec, p: Payload, limits: Limits): Option<IngestError> {
    if (limits.maxAggregateGroups > 0 && |p.aggregates| > limits.maxAggregateGroups) || |p.details| > limits.maxDetails
    then Some(FrameInvalid)
    else
      var e := AggregatesError(codec, p.aggregates, limits);
      if e.Some? then e
      else if exists i :: 0 <= i < |p.details| && !ValidDetail(codec, p.details[i], limits) then Some(FrameInvalid)
      else None
  }

  // What a payload accepted for publication guarantees: every entry is well formed, no group is
  // reported twice, no count is negative and the grand total fits an int64.
  ghost predicate PublishablePayload(codec: Codec, p: Payload, limits: Limits) {
    && (limits.maxAggregateGroups > 0 ==> |p.aggregates| <= limits.maxAggregateGroups)
    && |p.details| <= limits.maxDetails
    && (forall i :: 0 <= i < |p.aggregates| ==> ValidAggregateText(codec, p.aggregates[i], limits) && p.aggregates[i].count >= 0)
    && (forall i, j :: 0 <= i < j < |p.aggregates| ==> !SameKey(p.aggregates[i], p.aggregates[j]))
    && CountSum(p.aggregates) <= MAX_INT64
    && (forall i :: 0 <= i < |p.details| ==> ValidDetail(codec, p.details[i], limits))
  }

  lemma {:induction false} AggregatesAccepted(codec: Codec, s: seq<Aggregate>, limits: Limits)
    ensures AggregatesError(codec, s, limits) == None <==>
            && (forall i :: 0 <= i < |s| ==> ValidAggregateText(codec, s[i], limits) && s[i].count >= 0)
            && (forall i, j :: 0 <= i < j < |s| ==> !SameKey(s[i], s[j]))
            && CountSum(s) <= MAX_INT64
  {
    if s != [] {
      var t := s[..|s| - 1];
      AggregatesAccepted(codec, t, limits);
      assert forall i :: 0 <= i < |t| ==> t[i] == s[i];
      assert CountSum(s) == CountSum(t) + s[|s| - 1].count;
      if AggregatesError(codec, s, limits) == None {
        forall i, j | 0 <= i < j < |s| ensures !SameKey(s[i], s[j]) {
          if j < |t| { assert !SameKey(t[i], t[j]); } else { assert !Repeats(s, |s| - 1); }
        }
      }
    }
  }

  lemma PayloadAccepted(codec: Codec, p: Payload, limits: Limits)
    ensures PayloadError(codec, p, limits) == None <==> PublishablePayload(codec, p, limits)
  {
    AggregatesAccepted(codec, p.aggregates, limits);
  }

  datatype GroupKey = GroupKey(credential: string, model: string, status: string)
  datatype ModelKey = ModelKey(credential: string, model: string)

  function KeyOf(a: Aggregate): GroupKey { GroupKey(a.credential, a.model, a.status) }

  // checkedInFlightAdd: None where the source reports an overflow.
  function CheckedAdd(left: int, right: int): (r: Option<int>)
    ensures r == if 0 <= right && left + right <= MAX_INT64 then Some(left + right) else None
  {
    if right < 0 || left > MAX_INT64 - right then None else Some(left + right)
  }

  lemma {:induction false} ErrorPersists(codec: Codec, s: seq<Aggregate>, n: nat, limits: Limits)
    requires n <= |s| && AggregatesError(codec, s[..n], limits).Some?
    ensures AggregatesError(codec, s, limits) == AggregatesError(codec, s[..n], limits)
    decreases |s| - n
  {
    if n == |s| {
      assert s[..n] == s;
    } else {
      assert s[..n + 1][..n] == s[..n];
      ErrorPersists(codec, s, n + 1, limits);
    }
  }

  ghost function KeysBefore(s: seq<Aggregate>, i: nat): set<GroupKey>
    requires i <= |s|
  {
    set j | 0 <= j < i :: KeyOf(s[j])
  }

  lemma SeenIffRepeats(s: seq<Aggregate>, i: nat, seen: set<GroupKey>)
    requires i < |s| && seen == KeysBefore(s, i)
    ensures Repeats(s[..i + 1], i) <==> KeyOf(s[i]) in seen
    ensures seen + {KeyOf(s[i])} == KeysBefore(s, i + 1)
  {
    var t := s[..i + 1];
    assert t[i] == s[i];
    if KeyOf(s[i]) in seen {
      var j :| 0 <= j < i && KeyOf(s[j]) == KeyOf(s[i]);
      assert SameKey(t[j], t[i]);
    }
    if Repeats(t, i) {
      var j :| 0 <= j < i && SameKey(t[j], t[i]);
      assert KeyOf(s[j]) == KeyOf(s[i]);
    }
  }

  // What is wrong with the n-th entry, those before it being right.
  ghost predicate FaultAt(codec: Codec, s: seq<Aggregate>, n: int, limits: Limits, e: IngestError)
    requires 0 <= n < |s|
  {
    && AggregatesError(codec, s[..n], limits) == None
    && var unusable := !ValidAggregateText(codec, s[n], limits) || exists j :: 0 <= j < n && SameKey(s[j], s[n]);
       match e
       case FrameInvalid => unusable
       case RevisionOverflow => !unusable && (s[n].count < 0 || CountSum(s[..n]) + s[n].count > MAX_INT64)
       case _ => false
  }

  lemma FaultFound(codec: Codec, s: seq<Aggregate>, n: int, limits: Limits, e: IngestError)
    requires 0 <= n < |s|
    ensures FaultAt(codec, s, n, limits, e) <==>
            AggregatesError(codec, s[..n], limits) == None && AggregatesError(codec, s[..n + 1], limits) == Some(e)
  {
    assert s[..n + 1][..n] == s[..n] && s[..n + 1][n] == s[n];
    assert Repeats(s[..n + 1], n) <==> exists j :: 0 <= j < n && SameKey(s[j], s[n]);
  }

  // The error is that of the first entry that has one.
  lemma {:induction false} FirstFault(codec: Codec, s: seq<Aggregate>, limits: Limits, e: IngestError)
    ensures AggregatesError(codec, s, limits) == Some(e) <==> exists n :: 0 <= n < |s| && FaultAt(codec, s, n, limits, e)
  {
    if n :| 0 <= n < |s| && FaultAt(codec, s, n, limits, e) {
      FaultFound(codec, s, n, limits, e);
      ErrorPersists(codec, s, n + 1, limits);
    }
    if s != [] && AggregatesError(codec, s, limits) == Some(e) {
      var last := |s| - 1;
      if AggregatesError(codec, s[..last], limits).Some? {
        FirstFault(codec, s[..last], limits, e);
        var n :| 0 <= n < last && FaultAt(codec, s[..last], n, limits, e);
        assert s[..last][..n] == s[..n];
        assert FaultAt(codec, s, n, limits, e);
      } else {
        assert s[..last + 1] == s;
        FaultFound(codec, s, last, limits, e);
      }
    }
  }

  // One pass with a seen set and running totals finds the same error, and the separate
  // per-model totals never refuse anything the grand total would accept.
  method ValidateAggregates(codec: Codec, s: seq<Aggregate>, limits: Limits) returns (e: Option<IngestError>)
    ensures e == AggregatesError(codec, s, limits)
  {
    var seen: set<GroupKey> := {};
    var modelTotals: map<ModelKey, int> := map[];
    var total := 0;
    var i := 0;
    while i < |s|
      invariant 0 <= i <= |s|
      invariant AggregatesError(codec, s[..i], limits) == None
      invariant forall j :: 0 <= j < i ==> s[j].count >= 0
      invariant seen == KeysBefore(s, i)
      invariant total == CountSum(s[..i]) && 0 <= total <= MAX_INT64
      invariant forall k :: k in modelTotals ==> 0 <= modelTotals[k] <= total
    {
      var a := s[i];
      assert s[..i + 1][..i] == s[..i] && s[..i + 1][i] == a;
      assert CountSum(s[..i + 1]) == total + a.count;
      SeenIffRepeats(s, i, seen);
      if !ValidAggregateText(codec, a, limits) || KeyOf(a) in seen {
        ErrorPersists(codec, s, i + 1, limits);
        return Some(FrameInvalid);
      }
      var modelKey := ModelKey(a.credential, a.model);
      var modelBefore := if modelKey in modelTotals then modelTotals[modelKey] else 0;
      var modelNext := CheckedAdd(modelBefore, a.count);
      var totalNext := CheckedAdd(total, a.count);
      if modelNext.None? || totalNext.None? {
        ErrorPersists(codec, s, i + 1, limits);
        return Some(RevisionOverflow);
      }
      seen := seen + {KeyOf(a)};
      modelTotals := modelTotals[modelKey := modelNext.value];
      total := totalNext.value;
      i := i + 1;
    }
    assert s[..i] == s;
    e := None;
  }

  method ValidateComplete(codec: Codec, p: Payload, limits: Limits) returns (e: Option<IngestError>)
    ensures e == PayloadError(codec, p, limits)
    ensures e == None <==> PublishablePayload(codec, p, limits)
  {
    PayloadAccepted(codec, p, limits);
    if (limits.maxAggregateGroups > 0 && |p.aggregates| > limits.maxAggregateGroups) || |p.details| > limits.maxDetails {
      return Some(FrameInvalid);
    }
    e := ValidateAggregates(codec, p.aggregates, limits);
    if e.Some? { return; }
    for i := 0 to |p.details|
      invariant forall j :: 0 <= j < i ==> ValidDetail(codec, p.details[j], limits)
    {
      if !ValidDetail(codec, p.details[i], limits) { return Some(FrameInvalid); }
    }
  }

  // One staged row, as the completion query returns it.
  datatype PartRow = PartRow(index: int, payload: Bytes)

  function EncodedBytes(rows: seq<PartRow>): nat {
    if rows == [] then 0 else EncodedBytes(rows[..|rows| - 1]) + |rows[|rows| - 1].payload|
  }

  predicate SameRevision(f: Frame, first: Frame)
    requires first.PartFrame?
  {
    && f.PartFrame? && f.revision == first.revision && f.count == first.count
    && f.observedAt == first.observedAt && f.barrier == first.barrier && f.truncated == first.truncated
  }

  // Row i of the query holds part i of the revision `first` belongs to.
  predicate GoodRow(codec: Codec, rows: seq<PartRow>, i: nat, first: Frame, limits: Limits)
    requires first.PartFrame? && i < |rows|
  {
    && rows[i].index == i
    && var r := DecodeStrict(codec, rows[i].payload, limits);
       r.Ok? && SameRevision(r.value, first) && r.value.index == i
  }

  function FrameAt(codec: Codec, raw: Bytes): Frame
    requires codec.frame(raw).Some?
  {
    codec.frame(raw).value
  }

  // The payload of the first n rows: aggregates and details concatenated in part-index order.
  function Concatenated(codec: Codec, rows: seq<PartRow>, n: nat, first: Frame, limits: Limits): Payload
    requires first.PartFrame? && n <= |rows| && forall i :: 0 <= i < n ==> GoodRow(codec, rows, i, first, limits)
  {
    if n == 0 then Payload([], [], first.truncated)
    else
      assert GoodRow(codec, rows, n - 1, first, limits);
      var p := Concatenated(codec, rows, n - 1, first, limits);
      var f := FrameAt(codec, rows[n - 1].payload);
      p.(aggregates := p.aggregates + f.aggregates, details := p.details + f.details)
  }

  // Lists one after the other.
  function Flat<T>(lists: seq<seq<T>>): seq<T> {
    if lists == [] then [] else lists[0] + Flat(lists[1..])
  }

  lemma {:induction false} FlatNext<T>(lists: seq<seq<T>>, last: seq<T>)
    ensures Flat(lists + [last]) == Flat(lists) + last
  {
    if lists == [] {
      assert Flat([last]) == last + Flat([last][1..]) && [last][1..] == [];
    } else {
      assert (lists + [last])[1..] == lists[1..] + [last];
      FlatNext(lists[1..], last);
    }
  }

  predicate Carries(codec: Codec, raw: Bytes) { codec.frame(raw).Some? && codec.frame(raw).value.PartFrame? }

  function PartIn(codec: Codec, raw: Bytes): (f: Frame)
    requires Carries(codec, raw)
    ensures f.PartFrame?
  {
    codec.frame(raw).value
  }

  // The parts that some byte strings carry.
  function Carried(codec: Codec, raws: seq<Bytes>): (frames: seq<Frame>)
    requires forall i :: 0 <= i < |raws| ==> Carries(codec, raws[i])
    ensures |frames| == |raws| && forall i :: 0 <= i < |raws| ==> frames[i] == PartIn(codec, raws[i])
  {
    seq(|raws|, i requires 0 <= i < |raws| && Carries(codec, raws[i]) => PartIn(codec, raws[i]))
  }

  function AggregatesOf(frames: seq<Frame>): seq<seq<Aggregate>>
    requires forall i :: 0 <= i < |frames| ==> frames[i].PartFrame?
  {
    seq(|frames|, i requires 0 <= i < |frames| => frames[i].aggregates)
  }

  function DetailsOf(frames: seq<Frame>): seq<seq<Detail>>
    requires forall i :: 0 <= i < |frames| ==> frames[i].PartFrame?
  {
    seq(|frames|, i requires 0 <= i < |frames| => frames[i].details)
  }

  // The concatenation has the aggregates and details of all frames, frame after frame.
  lemma {:induction false} ConcatenatedFlat(codec: Codec, rows: seq<PartRow>, n: nat, first: Frame, limits: Limits)
    requires first.PartFrame? && n <= |rows| && forall i :: 0 <= i < n ==> GoodRow(codec, rows, i, first, limits)
    ensures forall i :: 0 <= i < n ==> Carries(codec, Payloads(rows)[..n][i])
    ensures var frames := Carried(codec, Payloads(rows)[..n]);
            Concatenated(codec, rows, n, first, limits) == Payload(Flat(AggregatesOf(frames)), Flat(DetailsOf(frames)), first.truncated)
  {
    forall i | 0 <= i < n ensures Carries(codec, Payloads(rows)[..n][i]) {
      assert GoodRow(codec, rows, i, first, limits);
    }
    if n > 0 {
      ConcatenatedFlat(codec, rows, n - 1, first, limits);
      var before, all := Carried(codec, Payloads(rows)[..n - 1]), Carried(codec, Payloads(rows)[..n]);
      assert GoodRow(codec, rows, n - 1, first, limits);
      var f := codec.frame(rows[n - 1].payload).value;
      assert all == before + [f];
      assert AggregatesOf(all) == AggregatesOf(before) + [f.aggregates] && DetailsOf(all) == DetailsOf(before) + [f.details];
      FlatNext(AggregatesOf(before), f.aggregates);
      FlatNext(DetailsOf(before), f.details);
    }
  }

  lemma {:induction false} EncodedFlat(rows: seq<PartRow>)
    ensures EncodedBytes(rows) == |Flat(Payloads(rows))|
  {
    if rows != [] {
      EncodedFlat(rows[..|rows| - 1]);
      assert Payloads(rows) == Payloads(rows[..|rows| - 1]) + [rows[|rows| - 1].payload];
      FlatNext(Payloads(rows[..|rows| - 1]), rows[|rows| - 1].payload);
    }
  }

  function Payloads(rows: seq<PartRow>): seq<Bytes> { seq(|rows|, i requires 0 <= i < |rows| => rows[i].payload) }

  // The counts of several lists add up.
  lemma {:induction false} CountSumAdds(first: seq<Aggregate>, rest: seq<Aggregate>)
    ensures CountSum(first + rest) == CountSum(first) + CountSum(rest)
    ensures |rest| == 1 ==> CountSum(rest) == rest[0].count
  {
    if rest == [] {
      assert first + rest == first;
    } else {
      var n := |rest| - 1;
      assert (first + rest)[..|first| + n] == first + rest[..n];
      CountSumAdds(first, rest[..n]);
    }
  }

  function Assemble(codec: Codec, rows: seq<PartRow>, first: Frame, limits: Limits): (r: Result<Payload, IngestError>)
    requires first.PartFrame?
  {
    if |rows| != first.count then Err(FrameInvalid)
    else if EncodedBytes(rows) > MAX_INT64 then Err(RevisionOverflow)
    else if exists i :: 0 <= i < |rows| && !GoodRow(codec, rows, i, first, limits) then Err(FrameInvalid)
    else if limits.maxRevisionBytes > 0 && EncodedBytes(rows) > limits.maxRevisionBytes then Err(RevisionOverflow)
    else
      var p := Concatenated(codec, rows, |rows|, first, limits);
      match PayloadError(codec, p, limits)
      case Some(e) => Err(e)
      case None => Ok(p)
  }

  lemma {:induction false} EncodedBytesMonotone(rows: seq<PartRow>, n: nat)
    requires n <= |rows|
    ensures EncodedBytes(rows[..n]) <= EncodedBytes(rows)
  {
    if n < |rows| {
      assert rows[..|rows| - 1][..n] == rows[..n];
      EncodedBytesMonotone(rows[..|rows| - 1], n);
    } else {
      assert rows[..n] == rows;
    }
  }

  // completeInFlightPayload: sums the stored sizes, then decodes the rows in order, appending as it goes.
  method CompletePayload(codec: Codec, rows: seq<PartRow>, first: Frame, limits: Limits) returns (r: Result<Payload, IngestError>)
    requires first.PartFrame?
    ensures r == Assemble(codec, rows, first, limits)
    ensures r.Ok? ==> PublishablePayload(codec, r.value, limits)
  {
    if |rows| != first.count { return Err(FrameInvalid); }
    var encoded := 0;
    for i := 0 to |rows|
      invariant encoded == EncodedBytes(rows[..i]) <= MAX_INT64
    {
      assert rows[..i + 1][..i] == rows[..i];
      var next := CheckedAdd(encoded, |rows[i].payload|);
      if next.None? {
        EncodedBytesMonotone(rows, i + 1);
        return Err(RevisionOverflow);
      }
      encoded := next.value;
    }
    assert rows[..|rows|] == rows;
    var payload := Payload([], [], first.truncated);
    var i := 0;
    while i < |rows|
      invariant 0 <= i <= |rows|
      invariant forall j :: 0 <= j < i ==> GoodRow(codec, rows, j, first, limits)
      invariant payload == Concatenated(codec, rows, i, first, limits)
    {
      var decoded := DecodeStrict(codec, rows[i].payload, limits);
      if rows[i].index != i || decoded.Err? || !SameRevision(decoded.value, first) || decoded.value.index != i {
        assert !GoodRow(codec, rows, i, first, limits);
        return Err(FrameInvalid);
      }
      assert GoodRow(codec, rows, i, first, limits);
      payload := payload.(aggregates := payload.aggregates + decoded.value.aggregates,
                          details := payload.details + decoded.value.details);
      i := i + 1;
    }
    if limits.maxRevisionBytes > 0 && encoded > limits.maxRevisionBytes { return Err(RevisionOverflow); }
    var e := ValidateComplete(codec, payload, limits);
    if e.Some? { return Err(e.value); }
    r := Ok(payload);
  }
}
