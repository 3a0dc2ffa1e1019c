/** Carving reported detail counts out of the canonical token buckets of complete accounting. Every bucket
    is clamped, so whatever a provider reports, the pieces are disjoint and add up to the bucket. */
module BillingCarving {
  // Complete accounting: a valid breakdown has no negative count, its input is the sum of the
  // first three and its output the sum of the last two.
  datatype Breakdown = Breakdown(uncached: nat, cacheRead: nat, cacheWrite: nat, nonReasoning: nat, reasoning: nat) {
    function Input(): nat { uncached + cacheRead + cacheWrite }

    function Output(): nat { nonReasoning + reasoning }
  }

  // The optional counts of a usage report.
  datatype Details = Details(cacheWrite30m: int, cacheWrite1h: int, cacheWrite12h: int, textInput: int,
                             imageInput: int, audioInput: int, videoInput: int, fileInput: int,
                             imageCacheRead: int, audioCacheRead: int, cachedText: int,
                             imageOutput: int, audioOutput: int, videoOutput: int)

  const NO_DETAILS := Details(0, 0, 0, 0, 0, 0, 0, 0, 0, 0, 0, 0, 0, 0)

  // clampBillingTokens: the value, no less than nothing and no more than the limit.
  function Clamp(value: int, limit: int): (r: nat)
    ensures limit >= 0 ==> r <= limit
    ensures 0 <= value <= limit ==> r == value
    ensures value >= 0 ==> r <= value
  {
    if value < 0 || limit <= 0 then 0 else if value > limit then limit else value
  }

  datatype Modalities = Modalities(image: nat, audio: nat, video: nat, file: nat, imageCache: nat, audioCache: nat, cachedText: nat)

  // The cached part of one medium and what is left to find among the uncached tokens. A provider that
  // reports a medium's total without its cached part gets it as cached where only the cache can hold it.
  function Cached(uncached: int, cacheRead: int, room: int, textInput: int, total: int, cached: nat): (r: (int, int)) {
    if cached > 0 then (cached, if total - cached > 0 then total - cached else 0)
    else if cacheRead > 0 && textInput == 0 && total > uncached && total <= room then (total, 0)
    else (0, total)
  }

  // What uncached media may take: all but the text that is known to be uncached.
  function MediaBudget(uncached: nat, d: Details): nat {
    if d.textInput > 0 && d.cachedText > 0 && d.textInput >= d.cachedText then uncached - Clamp(d.textInput - d.cachedText,
        uncached) else uncached
  }

  function Carve(uncached: nat, cacheRead: nat, d: Details): Modalities {
    var imageCached := Clamp(d.imageCacheRead, cacheRead);
    var audioCached := Clamp(d.audioCacheRead, cacheRead - imageCached);
    var cachedText := Clamp(d.cachedText, cacheRead - imageCached - audioCached);
    var image := Cached(uncached, cacheRead, cacheRead - audioCached - cachedText, d.textInput, d.imageInput, imageCached);
    var audio := Cached(uncached, cacheRead, cacheRead - image.0 - cachedText, d.textInput, d.audioInput, audioCached);
    var budget := MediaBudget(uncached, d);
    var imageInput := Clamp(image.1, budget);
    var audioInput := Clamp(audio.1, budget - imageInput);
    var videoInput := Clamp(d.videoInput, budget - imageInput - audioInput);
    Modalities(imageInput, audioInput, videoInput, Clamp(d.fileInput, budget - imageInput - audioInput - videoInput),
               image.0, audio.0, cachedText)
  }

  method FindCached(uncached: nat, cacheRead: nat, room: int, textInput: int, total: int, clamped: nat) returns (cached: nat, raw: int)
    ensures (cached, raw) == Cached(uncached, cacheRead, room, textInput, total, clamped)
  {
    cached, raw := clamped, total;
    if cached > 0 {
      raw := if raw - cached > 0 then raw - cached else 0;
    } else if cacheRead > 0 && textInput == 0 && raw > uncached && raw <= room {
      cached, raw := raw, 0;
    }
  }

  method CarveInputModalities(uncached: nat, cacheRead: nat, d: Details) returns (m: Modalities)
    ensures m == Carve(uncached, cacheRead, d)
  {
    var imageCache := Clamp(d.imageCacheRead, cacheRead);
    var audioCache := Clamp(d.audioCacheRead, cacheRead - imageCache);
    var cachedText := Clamp(d.cachedText, cacheRead - imageCache - audioCache);
    var rawImage, rawAudio;
    imageCache, rawImage := FindCached(uncached, cacheRead, cacheRead - audioCache - cachedText, d.textInput, d.imageInput, imageCache);
    audioCache, rawAudio := FindCached(uncached, cacheRead, cacheRead - imageCache - cachedText, d.textInput, d.audioInput, audioCache);
    var budget := uncached;
    if d.textInput > 0 && d.cachedText > 0 && d.textInput >= d.cachedText {
      budget := uncached - Clamp(d.textInput - d.cachedText, uncached);
    }
    var image := Clamp(rawImage, budget);
    var audio := Clamp(rawAudio, budget - image);
    var video := Clamp(d.videoInput, budget - image - audio);
    var file := Clamp(d.fileInput, budget - image - audio - video);
    m := Modalities(image, audio, video, file, imageCache, audioCache, cachedText);
  }

  // Carving stays within the buckets it carves, whatever is reported; no media token is counted both
  // as cached and as uncached; and the text known to be uncached is not taken for media.
  lemma CarveDisjoint(uncached: nat, cacheRead: nat, d: Details)
    ensures var m := Carve(uncached, cacheRead, d);
            && m.image + m.audio + m.video + m.file <= uncached
            && m.imageCache + m.audioCache + m.cachedText <= cacheRead
            && (d.imageInput >= 0 && d.imageCacheRead >= 0 ==> m.image + m.imageCache <= Larger(d.imageInput, d.imageCacheRead))
            && (d.audioInput >= 0 && d.audioCacheRead >= 0 ==> m.audio + m.audioCache <= Larger(d.audioInput, d.audioCacheRead))
            && (d.textInput >= d.cachedText > 0 ==>
                  uncached - m.image - m.audio - m.video - m.file >= Clamp(d.textInput - d.cachedText, uncached))
  {
  }

  function Larger(a: int, b: int): int { if a < b then b else a }

  // A report is coherent if its cached counts fit the cache, are part of their totals, and what
  // remains fits the uncached tokens next to the uncached text.
  predicate Coherent(uncached: nat, cacheRead: nat, d: Details) {
    && d.imageCacheRead >= 0 && d.audioCacheRead >= 0 && d.cachedText >= 0 && d.videoInput >= 0 && d.fileInput >= 0
    && d.imageCacheRead + d.audioCacheRead + d.cachedText <= cacheRead
    && d.imageInput >= d.imageCacheRead && d.audioInput >= d.audioCacheRead
    && d.imageInput - d.imageCacheRead + d.audioInput - d.audioCacheRead + d.videoInput + d.fileInput <= MediaBudget(uncached, d)
  }

  // A coherent report is carved exactly as it was reported.
  lemma CarveExact(uncached: nat, cacheRead: nat, d: Details)
    requires Coherent(uncached, cacheRead, d)
    ensures Carve(uncached, cacheRead, d) ==
            Modalities(d.imageInput - d.imageCacheRead, d.audioInput - d.audioCacheRead, d.videoInput, d.fileInput,
                       d.imageCacheRead, d.audioCacheRead, d.cachedText)
  {
  }

  // -- Expression buckets ----------------------------------------------------------------

  // The token variables of the pricing language that accounting fills, under their names.
  datatype Bucket =
    | P | C | R | CR | CC | CC30M | CC1H | CC12H | IMG | IMGO | AI | AO | VI | VO | FI | IMG_CR | ACR | CT

  // The bucket a token of this kind belongs to when nothing finer is priced: input or output.
  function Root(b: Bucket): Bucket {
    if b.C? || b.R? || b.IMGO? || b.AO? || b.VO? then C else P
  }

  // The buckets billingExpressionTokens fills for complete accounting.
  function Count(b: Breakdown, d: Details, bucket: Bucket): int {
    var m := Carve(b.uncached, b.cacheRead, d);
    var w30m := Clamp(d.cacheWrite30m, b.cacheWrite);
    var w1h := Clamp(d.cacheWrite1h, b.cacheWrite - w30m);
    var w12h := Clamp(d.cacheWrite12h, b.cacheWrite - w30m - w1h);
    var imageOutput := Clamp(d.imageOutput, b.nonReasoning);
    var audioOutput := Clamp(d.audioOutput, b.nonReasoning - imageOutput);
    var videoOutput := Clamp(d.videoOutput, b.nonReasoning - imageOutput - audioOutput);
    match bucket
    case P => b.uncached - m.image - m.audio - m.video - m.file
    case IMG => m.image
    case AI => m.audio
    case VI => m.video
    case FI => m.file
    case IMG_CR => m.imageCache
    case ACR => m.audioCache
    case CT => m.cachedText
    case CR => b.cacheRead - m.imageCache - m.audioCache - m.cachedText
    case CC => b.cacheWrite - w30m - w1h - w12h
    case CC30M => w30m
    case CC1H => w1h
    case CC12H => w12h
    case C => b.nonReasoning - imageOutput - audioOutput - videoOutput
    case R => b.reasoning
    case IMGO => imageOutput
    case AO => audioOutput
    case VO => videoOutput
  }

  lemma CountNatural(b: Breakdown, d: Details, bucket: Bucket)
    ensures Count(b, d, bucket) >= 0
  {
    CarveDisjoint(b.uncached, b.cacheRead, d);
  }

  // The buckets of each family add up to what was reported.
  lemma CountsAdd(b: Breakdown, d: Details)
    ensures Count(b, d, P) + Count(b, d, IMG) + Count(b, d, AI) + Count(b, d, VI) + Count(b, d, FI) + Count(b, d, IMG_CR) + Count(b, d, ACR)
      + Count(b, d, CT) + Count(b, d, CR) + Count(b, d, CC) + Count(b, d, CC30M) + Count(b, d, CC1H) + Count(b, d, CC12H) == b.Input()
    ensures Count(b, d, C) + Count(b, d, R) + Count(b, d, IMGO) + Count(b, d, AO) + Count(b, d, VO) == b.Output()
  {
  }

  // -- What is counted -----------------------------------------------------------------------

  // The details of cache writes and of output fit what they are details of.
  predicate CoherentRest(b: Breakdown, d: Details) {
    && d.cacheWrite30m >= 0 && d.cacheWrite1h >= 0 && d.cacheWrite12h >= 0
    && d.cacheWrite30m + d.cacheWrite1h + d.cacheWrite12h <= b.cacheWrite
    && d.imageOutput >= 0 && d.audioOutput >= 0 && d.videoOutput >= 0
    && d.imageOutput + d.audioOutput + d.videoOutput <= b.nonReasoning
  }

  // A coherent report is counted as it is: each detail in its bucket and what is left in the plain ones.
  lemma CountsReported(b: Breakdown, d: Details)
    requires Coherent(b.uncached, b.cacheRead, d) && CoherentRest(b, d)
    ensures Count(b, d, IMG) == d.imageInput - d.imageCacheRead && Count(b, d, AI) == d.audioInput - d.audioCacheRead
    ensures Count(b, d, VI) == d.videoInput && Count(b, d, FI) == d.fileInput
    ensures Count(b, d, IMG_CR) == d.imageCacheRead && Count(b, d, ACR) == d.audioCacheRead && Count(b, d, CT) == d.cachedText
    ensures Count(b, d, CC30M) == d.cacheWrite30m && Count(b, d, CC1H) == d.cacheWrite1h && Count(b, d, CC12H) == d.cacheWrite12h
    ensures Count(b, d, IMGO) == d.imageOutput && Count(b, d, AO) == d.audioOutput && Count(b, d, VO) == d.videoOutput
    ensures Count(b, d, R) == b.reasoning
    ensures Count(b, d, P) == b.uncached - (d.imageInput - d.imageCacheRead) - (d.audioInput - d.audioCacheRead) - d.videoInput - d.fileInput
    ensures Count(b, d, CR) == b.cacheRead - d.imageCacheRead - d.audioCacheRead - d.cachedText
    ensures Count(b, d, CC) == b.cacheWrite - d.cacheWrite30m - d.cacheWrite1h - d.cacheWrite12h
    ensures Count(b, d, C) == b.nonReasoning - d.imageOutput - d.audioOutput - d.videoOutput
  {
    CarveExact(b.uncached, b.cacheRead, d);
  }

  // Served in turn: nobody gets more than was asked, nobody anything while an earlier one lacks something, and
  // nothing is left while anybody lacks something.
  ghost predicate InTurn(asked: seq<int>, got: seq<int>, left: int) {
    && |asked| == |got| && left >= 0
    && (forall i :: 0 <= i < |got| ==> 0 <= got[i] && (got[i] > 0 ==> got[i] <= asked[i]))
    && (forall i, j :: 0 <= i < j < |got| && got[j] > 0 ==> got[i] >= asked[i])
    && (forall i :: 0 <= i < |got| && got[i] < asked[i] ==> left == 0)
  }

  // Whatever is reported, cache writes and output are served in this order.
  lemma CountsInTurn(b: Breakdown, d: Details)
    ensures InTurn([d.cacheWrite30m, d.cacheWrite1h, d.cacheWrite12h], [Count(b, d, CC30M), Count(b, d, CC1H), Count(b, d, CC12H)],
              Count(b, d, CC))
    ensures InTurn([d.imageOutput, d.audioOutput, d.videoOutput], [Count(b, d, IMGO), Count(b, d, AO), Count(b, d, VO)], Count(b, d, C))
  {
  }

  // So are the cache reads when the report counts text.
  lemma ReadsInTurn(b: Breakdown, d: Details)
    requires d.textInput != 0
    ensures InTurn([d.imageCacheRead, d.audioCacheRead, d.cachedText], [Count(b, d, IMG_CR), Count(b, d, ACR), Count(b, d, CT)], Count(b, d, CR))
  {
  }

  // And so is what is left of each medium: the text that is known to be uncached is not theirs to take.
  lemma MediaInTurn(b: Breakdown, d: Details)
    ensures var unread := if d.textInput >= d.cachedText > 0 then d.textInput - d.cachedText else 0;
            var text := if unread > b.uncached then b.uncached else unread;
            InTurn([d.imageInput - Count(b, d, IMG_CR), d.audioInput - Count(b, d, ACR), d.videoInput, d.fileInput],
                   [Count(b, d, IMG), Count(b, d, AI), Count(b, d, VI), Count(b, d, FI)], Count(b, d, P) - text)
  {
    var m := Carve(b.uncached, b.cacheRead, d);
    CarvedMedia(b.uncached, b.cacheRead, d);
    TakenInTurn(b.uncached, d, m);
  }

  // Media in terms of what was found to be cached.
  ghost predicate Taken(budget: nat, d: Details, m: Modalities) {
    && m.image == Clamp(d.imageInput - m.imageCache, budget)
    && m.audio == Clamp(d.audioInput - m.audioCache, budget - m.image)
    && m.video == Clamp(d.videoInput, budget - m.image - m.audio)
    && m.file == Clamp(d.fileInput, budget - m.image - m.audio - m.video)
  }

  lemma CarvedMedia(uncached: nat, cacheRead: nat, d: Details)
    ensures Taken(MediaBudget(uncached, d), d, Carve(uncached, cacheRead, d))
  {
    var m := Carve(uncached, cacheRead, d);
    LeftOver(d.imageInput, m.imageCache, MediaBudget(uncached, d), m.image);
  }

  lemma TakenInTurn(uncached: nat, d: Details, m: Modalities)
    requires Taken(MediaBudget(uncached, d), d, m)
    ensures var unread := if d.textInput >= d.cachedText > 0 then d.textInput - d.cachedText else 0;
            var text := if unread > uncached then uncached else unread;
            InTurn([d.imageInput - m.imageCache, d.audioInput - m.audioCache, d.videoInput, d.fileInput],
                   [m.image, m.audio, m.video, m.file], uncached - m.image - m.audio - m.video - m.file - text)
  {
    FourInTurn(MediaBudget(uncached, d), d.imageInput - m.imageCache, d.audioInput - m.audioCache, d.videoInput, d.fileInput);
  }

  // What a medium takes of the room is what it takes of the part that was not cached.
  lemma LeftOver(total: int, cached: nat, room: int, taken: nat)
    requires taken == Clamp(if cached > 0 then (if total - cached > 0 then total - cached else 0) else total, room)
    ensures taken == Clamp(total - cached, room)
  {
  }

  lemma FourInTurn(room: nat, a: int, b: int, c: int, d: int)
    ensures var x := Clamp(a, room);
            var y := Clamp(b, room - x);
            var z := Clamp(c, room - x - y);
            var w := Clamp(d, room - x - y - z);
            InTurn([a, b, c, d], [x, y, z, w], room - x - y - z - w)
  {
  }

  // A report with the totals of two media only: a total that exceeds the uncached tokens and fits what is left of
  // the cache is cached, the image first; the others are uncached.
  lemma MediaCached(b: Breakdown, image: int, audio: int)
    ensures var d := NO_DETAILS.(imageInput := image, audioInput := audio);
            && (if b.cacheRead > 0 && b.uncached < image <= b.cacheRead then Count(b, d, IMG_CR) == image && Count(b, d, IMG) == 0
                else Count(b, d, IMG_CR) == 0 && (0 <= image <= b.uncached ==> Count(b, d, IMG) == image))
            && (if b.cacheRead > 0 && b.uncached < audio <= b.cacheRead - Count(b, d, IMG_CR)
                then Count(b, d, ACR) == audio && Count(b, d, AI) == 0
                else Count(b, d, ACR) == 0 && (0 <= audio <= b.uncached - Count(b, d, IMG) ==> Count(b, d, AI) == audio))
  {
  }
}
