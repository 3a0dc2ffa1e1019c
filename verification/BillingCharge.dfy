/** Column pricing of complete accounting: one priced line per bucket. Whatever details a report has, the lines'
    tokens add up to the reported total, and details without a price of their own do not change the cost. */
module BillingCharge {
  import opened Wrappers
  import opened BillingCarving

  // The prices of a rule, per million tokens. Optional ones fall back to a coarser price.
  datatype Prices = Prices(input: real, output: real, cacheRead: real, cacheWrite: real,
                           cacheWrite30m: Option<real>, cacheWrite1h: Option<real>, cacheWrite12h: Option<real>, reasoning: Option<real>,
                           imageInput: Option<real>, audioInput: Option<real>, imageOutput: Option<real>, audioOutput: Option<real>)

  function PriceOr(price: Option<real>, fallback: real): real { if price.Some? then price.value else fallback }

  datatype Line =
    | InputLine | ImageInputLine | AudioInputLine | CacheReadLine | CacheWriteLine | CacheWrite30mLine | CacheWrite1hLine | CacheWrite12hLine
    | OutputLine | ReasoningLine | ImageOutputLine | AudioOutputLine

  datatype CostItem = CostItem(tokens: int, price: real, cost: real)

  function LineCost(tokens: int, price: real): real { tokens as real * price / 1000000.0 }

  lemma LineCostAdds(a: int, b: int, price: real)
    ensures LineCost(a, price) + LineCost(b, price) == LineCost(a + b, price)
    ensures LineCost(0, price) == 0.0
  {
    assert (a + b) as real == a as real + b as real;
  }

  // The price of cache writes; a zero price means that they are billed as ordinary input.
  function WritePrice(s: Prices): real { if s.cacheWrite <= 0.0 then s.input else s.cacheWrite }

  // How many tokens a line bills.
  function LineTokens(b: Breakdown, d: Details, s: Prices, line: Line): int {
    var write5m := Count(b, d, CC);
    match line
    case InputLine => Count(b, d, P) + Count(b, d, VI) + Count(b, d, FI) + (if s.cacheWrite <= 0.0 then write5m else 0)
    case ImageInputLine => Count(b, d, IMG)
    case AudioInputLine => Count(b, d, AI)
    case CacheReadLine => b.cacheRead
    case CacheWriteLine => if s.cacheWrite <= 0.0 then 0 else write5m
    case CacheWrite30mLine => Count(b, d, CC30M)
    case CacheWrite1hLine => Count(b, d, CC1H)
    case CacheWrite12hLine => Count(b, d, CC12H)
    case OutputLine => Count(b, d, C) + Count(b, d, VO) + (if s.reasoning.None? then b.reasoning else 0)
    case ReasoningLine => if s.reasoning.None? then 0 else b.reasoning
    case ImageOutputLine => Count(b, d, IMGO)
    case AudioOutputLine => Count(b, d, AO)
  }

  // At what price.
  function LinePrice(s: Prices, line: Line): real {
    match line
    case InputLine => s.input
    case ImageInputLine => PriceOr(s.imageInput, s.input)
    case AudioInputLine => PriceOr(s.audioInput, s.input)
    case CacheReadLine => s.cacheRead
    case CacheWriteLine => s.cacheWrite
    case CacheWrite30mLine => PriceOr(s.cacheWrite30m, WritePrice(s))
    case CacheWrite1hLine => PriceOr(s.cacheWrite1h, WritePrice(s))
    case CacheWrite12hLine => PriceOr(s.cacheWrite12h, PriceOr(s.cacheWrite1h, PriceOr(s.cacheWrite30m, WritePrice(s))))
    case OutputLine => s.output
    case ReasoningLine => PriceOr(s.reasoning, s.output)
    case ImageOutputLine => PriceOr(s.imageOutput, s.output)
    case AudioOutputLine => PriceOr(s.audioOutput, s.output)
  }

  function Billed(b: Breakdown, d: Details, s: Prices, line: Line): real { LineCost(LineTokens(b, d, s, line), LinePrice(s, line)) }

  // What each line should say.
  function Items(b: Breakdown, d: Details, s: Prices): Line -> CostItem {
    line => CostItem(LineTokens(b, d, s, line), LinePrice(s, line), Billed(b, d, s, line))
  }

  function SumInput(spec: Line -> CostItem): real {
    spec(InputLine).cost + spec(ImageInputLine).cost + spec(AudioInputLine).cost + spec(CacheReadLine).cost
  }

  function SumCaches(spec: Line -> CostItem): real {
    spec(CacheWriteLine).cost + spec(CacheWrite30mLine).cost + spec(CacheWrite1hLine).cost + spec(CacheWrite12hLine).cost
  }

  function SumOutput(spec: Line -> CostItem): real {
    spec(OutputLine).cost + spec(ReasoningLine).cost + spec(ImageOutputLine).cost + spec(AudioOutputLine).cost
  }

  function InputCost(b: Breakdown, d: Details, s: Prices): real { SumInput(Items(b, d, s)) + SumCaches(Items(b, d, s)) }

  function OutputCost(b: Breakdown, d: Details, s: Prices): real { SumOutput(Items(b, d, s)) }

  lemma LineNatural(b: Breakdown, d: Details, s: Prices, line: Line)
    ensures LineTokens(b, d, s, line) >= 0
  {
    forall bucket ensures Count(b, d, bucket) >= 0 { CountNatural(b, d, bucket); }
  }

  // The lines bill every reported token once.
  lemma LinesAdd(b: Breakdown, d: Details, s: Prices)
    ensures LineTokens(b, d, s, InputLine) + LineTokens(b, d, s, ImageInputLine) + LineTokens(b, d, s, AudioInputLine)
      + LineTokens(b, d, s, CacheReadLine) + LineTokens(b, d, s, CacheWriteLine) + LineTokens(b, d, s, CacheWrite30mLine)
      + LineTokens(b, d, s, CacheWrite1hLine) + LineTokens(b, d, s, CacheWrite12hLine) == b.Input()
    ensures LineTokens(b, d, s, OutputLine) + LineTokens(b, d, s, ReasoningLine) + LineTokens(b, d, s, ImageOutputLine)
      + LineTokens(b, d, s, AudioOutputLine) == b.Output()
  {
    CanonicalCounts(b, d);
  }

  // -- Neutrality ------------------------------------------------------------------------

  // No price for a detail: what is carved out is billed like the bucket it comes from.
  predicate NoDetailPrices(s: Prices) {
    && s.cacheWrite30m.None? && s.cacheWrite1h.None? && s.cacheWrite12h.None?
    && s.imageInput.None? && s.audioInput.None? && s.imageOutput.None? && s.audioOutput.None?
  }

  // The cost by canonical bucket alone.
  function CanonicalInputCost(b: Breakdown, s: Prices): real {
    LineCost(b.uncached, s.input) + LineCost(b.cacheRead, s.cacheRead) + LineCost(b.cacheWrite, WritePrice(s))
  }

  function CanonicalOutputCost(b: Breakdown, s: Prices): real {
    LineCost(b.nonReasoning, s.output) + LineCost(b.reasoning, PriceOr(s.reasoning, s.output))
  }

  lemma LineCostAddsFour(a: int, b: int, c: int, d: int, price: real)
    ensures LineCost(a, price) + LineCost(b, price) + LineCost(c, price) + LineCost(d, price) == LineCost(a + b + c + d, price)
  {
    LineCostAdds(a, b, price);
    LineCostAdds(a + b, c, price);
    LineCostAdds(a + b + c, d, price);
  }

  // With no detail prices, carving changes no cost: whatever the details, the cost is that of the
  // canonical buckets.
  lemma CarvingNeutralInput(b: Breakdown, d: Details, s: Prices)
    requires NoDetailPrices(s)
    ensures InputCost(b, d, s) == CanonicalInputCost(b, s)
  {
    var text := Count(b, d, P) + Count(b, d, VI) + Count(b, d, FI);
    LineCostAddsFour(text, Count(b, d, IMG), Count(b, d, AI), 0, s.input);
    LineCostAddsFour(Count(b, d, CC), Count(b, d, CC30M), Count(b, d, CC1H), Count(b, d, CC12H), WritePrice(s));
    LineCostAdds(text, Count(b, d, CC), s.input);
    LineCostAdds(0, 0, s.cacheWrite);
    LineCostAdds(0, 0, s.input);
    CanonicalCounts(b, d);
  }

  // With no detail prices the details do not matter.
  lemma CarvingNeutral(b: Breakdown, d: Details, s: Prices)
    requires NoDetailPrices(s)
    ensures InputCost(b, d, s) + OutputCost(b, d, s) == InputCost(b, NO_DETAILS, s) + OutputCost(b, NO_DETAILS, s)
  {
    CarvingNeutralInput(b, d, s);
    CarvingNeutralOutput(b, d, s);
    CarvingNeutralInput(b, NO_DETAILS, s);
    CarvingNeutralOutput(b, NO_DETAILS, s);
  }

  lemma CanonicalCounts(b: Breakdown, d: Details)
    ensures Count(b, d, P) + Count(b, d, VI) + Count(b, d, FI) + Count(b, d, IMG) + Count(b, d, AI) == b.uncached
    ensures Count(b, d, CC) + Count(b, d, CC30M) + Count(b, d, CC1H) + Count(b, d, CC12H) == b.cacheWrite
    ensures Count(b, d, C) + Count(b, d, VO) + Count(b, d, IMGO) + Count(b, d, AO) == b.nonReasoning
  {
  }

  lemma CarvingNeutralOutput(b: Breakdown, d: Details, s: Prices)
    requires NoDetailPrices(s)
    ensures OutputCost(b, d, s) == CanonicalOutputCost(b, s)
  {
    var text := Count(b, d, C) + Count(b, d, VO);
    LineCostAddsFour(text, Count(b, d, IMGO), Count(b, d, AO), 0, s.output);
    LineCostAdds(text, b.reasoning, s.output);
    LineCostAdds(b.nonReasoning, b.reasoning, s.output);
    LineCostAdds(0, 0, s.output);
    CanonicalCounts(b, d);
  }

  // -- Prices of their own ---------------------------------------------------------------

  lemma {:induction false} Millionth(tokens: int, price: real)
    ensures 1000000.0 * LineCost(tokens, price) == tokens as real * price
  {
  }

  predicate AllSet(s: Prices) {
    && s.cacheWrite > 0.0 && s.cacheWrite30m.Some? && s.cacheWrite1h.Some? && s.cacheWrite12h.Some? && s.reasoning.Some?
    && s.imageInput.Some? && s.audioInput.Some? && s.imageOutput.Some? && s.audioOutput.Some?
  }

  // Once every price is set, each kind of token is charged at its own price.
  lemma OwnInputPrices(b: Breakdown, d: Details, s: Prices)
    requires AllSet(s)
    ensures InputCost(b, d, s) ==
            LineCost(Count(b, d, P) + Count(b, d, VI) + Count(b, d, FI), s.input)
            + LineCost(Count(b, d, IMG), s.imageInput.value) + LineCost(Count(b, d, AI), s.audioInput.value)
            + LineCost(b.cacheRead, s.cacheRead) + LineCost(Count(b, d, CC), s.cacheWrite)
            + LineCost(Count(b, d, CC30M), s.cacheWrite30m.value) + LineCost(Count(b, d, CC1H), s.cacheWrite1h.value)
            + LineCost(Count(b, d, CC12H), s.cacheWrite12h.value)
  {
  }

  lemma OwnOutputPrices(b: Breakdown, d: Details, s: Prices)
    requires AllSet(s)
    ensures OutputCost(b, d, s) ==
            LineCost(Count(b, d, C) + Count(b, d, VO), s.output) + LineCost(b.reasoning, s.reasoning.value)
            + LineCost(Count(b, d, IMGO), s.imageOutput.value) + LineCost(Count(b, d, AO), s.audioOutput.value)
  {
  }

  // A media price left out is the input price, written out, or the output price.
  lemma UnsetInputs(b: Breakdown, d: Details, s: Prices)
    ensures s.imageInput.None? ==> InputCost(b, d, s) == InputCost(b, d, s.(imageInput := Some(s.input)))
    ensures s.audioInput.None? ==> InputCost(b, d, s) == InputCost(b, d, s.(audioInput := Some(s.input)))
  {
  }

  lemma UnsetOutputs(b: Breakdown, d: Details, s: Prices)
    ensures s.imageOutput.None? ==> OutputCost(b, d, s) == OutputCost(b, d, s.(imageOutput := Some(s.output)))
    ensures s.audioOutput.None? ==> OutputCost(b, d, s) == OutputCost(b, d, s.(audioOutput := Some(s.output)))
  {
  }

  // Reasoning without a price is output.
  lemma UnsetReasoning(b: Breakdown, d: Details, s: Prices)
    requires s.reasoning.None?
    ensures OutputCost(b, d, s) == OutputCost(b, d, s.(reasoning := Some(s.output)))
  {
    LineCostAdds(Count(b, d, C) + Count(b, d, VO), b.reasoning, s.output);
  }

  // Cache writes without a price are input.
  lemma UnsetWrites(b: Breakdown, d: Details, s: Prices)
    requires s.cacheWrite <= 0.0
    ensures InputCost(b, d, s) == InputCost(b, d, s.(cacheWrite := s.input))
  {
    LineCostAdds(Count(b, d, P) + Count(b, d, VI) + Count(b, d, FI), Count(b, d, CC), s.input);
    LineCostAdds(0, 0, s.cacheWrite);
    LineCostAdds(0, 0, s.input);
  }

  // With the prices for every retention of cache writes.
  function Retained(s: Prices, cc30m: real, cc1h: real, cc12h: real): Prices {
    s.(cacheWrite30m := Some(cc30m), cacheWrite1h := Some(cc1h), cacheWrite12h := Some(cc12h))
  }

  // A price for thirty minutes or one hour left out is that of any write; one for twelve hours is
  // the one-hour price if there is one, else the thirty-minute price, else that of any write.
  lemma UnsetRetentions(b: Breakdown, d: Details, s: Prices)
    requires s.cacheWrite > 0.0
    ensures var any := s.cacheWrite;
            InputCost(b, d, s) == InputCost(b, d,
              match (s.cacheWrite30m, s.cacheWrite1h, s.cacheWrite12h)
              case (None, None, None) => Retained(s, any, any, any)
              case (Some(x), None, None) => Retained(s, x, any, x)
              case (None, Some(y), None) => Retained(s, any, y, y)
              case (Some(x), Some(y), None) => Retained(s, x, y, y)
              case (None, None, Some(z)) => Retained(s, any, any, z)
              case (Some(x), None, Some(z)) => Retained(s, x, any, z)
              case (None, Some(y), Some(z)) => Retained(s, any, y, z)
              case (Some(x), Some(y), Some(z)) => s)
  {
  }

  // -- The imperative charge -------------------------------------------------------------

  ghost predicate Priced(spec: Line -> CostItem) {
    forall line :: spec(line).tokens >= 0 && spec(line).cost == LineCost(spec(line).tokens, spec(line).price)
  }

  ghost predicate PricedBy(spec: Line -> CostItem, s: Prices) {
    Priced(spec) && forall line :: spec(line).price == LinePrice(s, line)
  }

  // The tokens of the input lines, as the charge computes them.
  predicate InputCounts(spec: Line -> CostItem, b: Breakdown, d: Details, s: Prices) {
    var m := Carve(b.uncached, b.cacheRead, d);
    var write30m := Clamp(d.cacheWrite30m, b.cacheWrite);
    var write1h := Clamp(d.cacheWrite1h, b.cacheWrite - write30m);
    var write12h := Clamp(d.cacheWrite12h, b.cacheWrite - write30m - write1h);
    var write5m := b.cacheWrite - write30m - write1h - write12h;
    && spec(InputLine).tokens == b.uncached - m.image - m.audio + (if s.cacheWrite <= 0.0 then write5m else 0)
    && spec(ImageInputLine).tokens == m.image && spec(AudioInputLine).tokens == m.audio && spec(CacheReadLine).tokens == b.cacheRead
    && spec(CacheWriteLine).tokens == (if s.cacheWrite <= 0.0 then 0 else write5m)
    && spec(CacheWrite30mLine).tokens == write30m && spec(CacheWrite1hLine).tokens == write1h && spec(CacheWrite12hLine).tokens == write12h
  }

  predicate OutputCounts(spec: Line -> CostItem, b: Breakdown, d: Details, s: Prices) {
    var image := Clamp(d.imageOutput, b.nonReasoning);
    var audio := Clamp(d.audioOutput, b.nonReasoning - image);
    && spec(OutputLine).tokens == b.nonReasoning - image - audio + (if s.reasoning.None? then b.reasoning else 0)
    && spec(ReasoningLine).tokens == (if s.reasoning.None? then 0 else b.reasoning)
    && spec(ImageOutputLine).tokens == image && spec(AudioOutputLine).tokens == audio
  }

  // The lines done have been added: each is there exactly if it bills anything.
  ghost predicate Charged(items: map<Line, CostItem>, spec: Line -> CostItem, done: set<Line>) {
    && (forall line :: line in items <==> line in done && spec(line).tokens > 0)
    && (forall line :: line in items ==> items[line] == spec(line))
  }

  // Itemized as they should be: the lines that bill anything, and no others.
  ghost predicate Itemized(items: map<Line, CostItem>, spec: Line -> CostItem) {
    forall line :: if spec(line).tokens > 0 then line in items && items[line] == spec(line) else line !in items
  }

  const INPUT_LINES: set<Line> := {InputLine, ImageInputLine, AudioInputLine, CacheReadLine}
  const CACHE_LINES: set<Line> := {CacheWriteLine, CacheWrite30mLine, CacheWrite1hLine, CacheWrite12hLine}
  const OUTPUT_LINES: set<Line> := {OutputLine, ReasoningLine, ImageOutputLine, AudioOutputLine}

  lemma AllLines(items: map<Line, CostItem>, spec: Line -> CostItem)
    requires Charged(items, spec, INPUT_LINES + CACHE_LINES + OUTPUT_LINES)
    ensures Itemized(items, spec)
  {
    forall line: Line ensures line in INPUT_LINES + CACHE_LINES + OUTPUT_LINES {
      match line case InputLine => case _ =>
    }
  }

  class CostBreakdown {
    var items: map<Line, CostItem>
    var total: real

    constructor ()
      ensures items == map[] && total == 0.0
    {
      items, total := map[], 0.0;
    }

    method Add(line: Line, tokens: int, price: real, ghost spec: Line -> CostItem, ghost done: set<Line>)
      requires tokens == spec(line).tokens && price == spec(line).price && line !in done && Priced(spec) && Charged(items, spec, done)
      modifies this
      ensures Charged(items, spec, done + {line})
      ensures total == old(total) + spec(line).cost
    {
      LineCostAdds(0, 0, price);
      if tokens <= 0 { return; }
      var cost := LineCost(tokens, price);
      items := items[line := CostItem(tokens, price, cost)];
      total := total + cost;
    }

    // Every line that bills anything is itemized with its tokens, price and cost, and the total is
    // the sum of the costs.
    method ChargeComplete(b: Breakdown, d: Details, s: Prices)
      requires items == map[] && total == 0.0
      modifies this
      ensures Itemized(items, Items(b, d, s)) && total == InputCost(b, d, s) + OutputCost(b, d, s)
    {
      ghost var spec := Items(b, d, s);
      ItemsPriced(b, d, s);
      InputCounted(b, d, s);
      OutputCounted(b, d, s);
      ChargeInput(b, d, s, spec);
      ChargeOutput(b, d, s, spec);
      AllLines(items, spec);
    }

    method ChargeInput(b: Breakdown, d: Details, s: Prices, ghost spec: Line -> CostItem)
      requires PricedBy(spec, s) && InputCounts(spec, b, d, s) && Charged(items, spec, {})
      modifies this
      ensures Charged(items, spec, INPUT_LINES + CACHE_LINES)
      ensures total == old(total) + SumInput(spec) + SumCaches(spec)
    {
      var write30m := Clamp(d.cacheWrite30m, b.cacheWrite);
      var write1h := Clamp(d.cacheWrite1h, b.cacheWrite - write30m);
      var write12h := Clamp(d.cacheWrite12h, b.cacheWrite - write30m - write1h);
      var write5m := b.cacheWrite - write30m - write1h - write12h;
      var m := CarveInputModalities(b.uncached, b.cacheRead, d);
      var textInput := b.uncached - m.image - m.audio;
      var writePrice := s.cacheWrite;
      if writePrice <= 0.0 {
        textInput := textInput + write5m;
        write5m := 0;
        writePrice := s.input;
      }
      AddInput(textInput, m.image, m.audio, b.cacheRead, s, spec);
      AddCaches(write5m, write30m, write1h, write12h, writePrice, s, spec);
    }

    method ChargeOutput(b: Breakdown, d: Details, s: Prices, ghost spec: Line -> CostItem)
      requires PricedBy(spec, s) && OutputCounts(spec, b, d, s) && Charged(items, spec, INPUT_LINES + CACHE_LINES)
      modifies this
      ensures Charged(items, spec, INPUT_LINES + CACHE_LINES + OUTPUT_LINES)
      ensures total == old(total) + SumOutput(spec)
    {
      var reasoning := b.reasoning;
      var imageOutput := Clamp(d.imageOutput, b.nonReasoning);
      var audioOutput := Clamp(d.audioOutput, b.nonReasoning - imageOutput);
      var textOutput := b.nonReasoning - imageOutput - audioOutput;
      if s.reasoning.None? {
        textOutput := textOutput + reasoning;
        reasoning := 0;
      }
      AddOutput(textOutput, reasoning, imageOutput, audioOutput, s, spec);
    }

    method AddInput(text: int, image: int, audio: int, cacheRead: int, s: Prices, ghost spec: Line -> CostItem)
      requires PricedBy(spec, s) && Charged(items, spec, {})
      requires text == spec(InputLine).tokens && image == spec(ImageInputLine).tokens && audio == spec(AudioInputLine).tokens
      requires cacheRead == spec(CacheReadLine).tokens
      modifies this
      ensures Charged(items, spec, INPUT_LINES) && total == old(total) + SumInput(spec)
    {
      Add(InputLine, text, s.input, spec, {});
      Add(ImageInputLine, image, PriceOr(s.imageInput, s.input), spec, {InputLine});
      Add(AudioInputLine, audio, PriceOr(s.audioInput, s.input), spec, {InputLine, ImageInputLine});
      Add(CacheReadLine, cacheRead, s.cacheRead, spec, {InputLine, ImageInputLine, AudioInputLine});
    }

    method AddCaches(write5m: int, write30m: int, write1h: int, write12h: int, writePrice: real, s: Prices, ghost spec: Line -> CostItem)
      requires PricedBy(spec, s) && Charged(items, spec, INPUT_LINES)
      requires write5m == spec(CacheWriteLine).tokens && write30m == spec(CacheWrite30mLine).tokens && writePrice == WritePrice(s)
      requires write1h == spec(CacheWrite1hLine).tokens && write12h == spec(CacheWrite12hLine).tokens
      modifies this
      ensures Charged(items, spec, INPUT_LINES + CACHE_LINES) && total == old(total) + SumCaches(spec)
    {
      var write30mPrice := PriceOr(s.cacheWrite30m, writePrice);
      var write1hPrice := PriceOr(s.cacheWrite1h, writePrice);
      var write12hPrice := PriceOr(s.cacheWrite12h, PriceOr(s.cacheWrite1h, write30mPrice));
      ghost var done := INPUT_LINES;
      Add(CacheWriteLine, write5m, s.cacheWrite, spec, done);
      Add(CacheWrite30mLine, write30m, write30mPrice, spec, done + {CacheWriteLine});
      Add(CacheWrite1hLine, write1h, write1hPrice, spec, done + {CacheWriteLine} + {CacheWrite30mLine});
      Add(CacheWrite12hLine, write12h, write12hPrice, spec, done + {CacheWriteLine} + {CacheWrite30mLine} + {CacheWrite1hLine});
      assert done + {CacheWriteLine} + {CacheWrite30mLine} + {CacheWrite1hLine} + {CacheWrite12hLine} == done + CACHE_LINES;
    }

    method AddOutput(text: int, reasoning: int, image: int, audio: int, s: Prices, ghost spec: Line -> CostItem)
      requires PricedBy(spec, s) && Charged(items, spec, INPUT_LINES + CACHE_LINES)
      requires text == spec(OutputLine).tokens && reasoning == spec(ReasoningLine).tokens
      requires image == spec(ImageOutputLine).tokens && audio == spec(AudioOutputLine).tokens
      modifies this
      ensures Charged(items, spec, INPUT_LINES + CACHE_LINES + OUTPUT_LINES) && total == old(total) + SumOutput(spec)
    {
      ghost var done := INPUT_LINES + CACHE_LINES;
      Add(OutputLine, text, s.output, spec, done);
      Add(ReasoningLine, reasoning, PriceOr(s.reasoning, s.output), spec, done + {OutputLine});
      Add(ImageOutputLine, image, PriceOr(s.imageOutput, s.output), spec, done + {OutputLine} + {ReasoningLine});
      Add(AudioOutputLine, audio, PriceOr(s.audioOutput, s.output), spec, done + {OutputLine} + {ReasoningLine} + {ImageOutputLine});
      assert done + {OutputLine} + {ReasoningLine} + {ImageOutputLine} + {AudioOutputLine} == done + OUTPUT_LINES;
    }
  }

  lemma ItemsPriced(b: Breakdown, d: Details, s: Prices)
    ensures PricedBy(Items(b, d, s), s)
  {
    forall line ensures LineTokens(b, d, s, line) >= 0 { LineNatural(b, d, s, line); }
  }

  lemma InputCounted(b: Breakdown, d: Details, s: Prices)
    ensures InputCounts(Items(b, d, s), b, d, s)
  {
  }

  lemma OutputCounted(b: Breakdown, d: Details, s: Prices)
    ensures OutputCounts(Items(b, d, s), b, d, s)
  {
  }
}
