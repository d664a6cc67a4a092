/** What the receiver makes of transmitted bytes: from the bits on six lanes to the frames. */
module RgmiiTransmit {
  import opened Options
  import opened RgmiiSampling
  import opened RgmiiFrames
  import opened RgmiiTheorems
  import opened RgmiiEndToEnd

  /** What is sent in one clock period: a byte of a frame, or nothing between frames. */
  datatype Symbol = Symbol(valid: bool, data: nat, error: bool)

  /** One clock period on the lanes: the clock is low for the first samples and high for the others. */
  datatype Cell = Cell(lanes: Lanes, low: nat, symbol: Symbol)

  function Length(c: Cell): nat { if c.lanes == [] then 0 else |c.lanes[0]| }

  /** The four low bits of a number, lowest first. */
  function LowBits(d: nat): (b: seq<bool>)
    ensures |b| == 4
  {
    [d % 2 == 1, d / 2 % 2 == 1, d / 2 / 2 % 2 == 1, d / 2 / 2 / 2 % 2 == 1]
  }

  /** Just before the clock rises the control lane says whether there is a byte and the data lanes have
      its four low bits, lowest first; just before it falls the control lane differs from that exactly
      for an error and the data lanes have the four high bits.  The other samples do not matter. */
  predicate Carries(c: Cell) {
    && |c.lanes| == 6 && (forall j | 0 <= j < 6 :: |c.lanes[j]| == Length(c))
    && 1 <= c.low < Length(c) && c.symbol.data < 256
    && (forall i | 0 <= i < Length(c) :: c.lanes[0][i] <==> i >= c.low)
    && c.lanes[1][c.low - 1] == c.symbol.valid
    && c.lanes[1][Length(c) - 1] == (c.symbol.valid != c.symbol.error)
    && DataAt(c.lanes, c.low - 1, LowBits(c.symbol.data))
    && DataAt(c.lanes, Length(c) - 1, LowBits(c.symbol.data / 16))
  }

  predicate DataAt(lanes: Lanes, i: nat, bits: seq<bool>)
    requires |bits| == 4 && |lanes| == 6 && forall j | 0 <= j < 6 :: i < |lanes[j]|
  {
    lanes[2][i] == bits[0] && lanes[3][i] == bits[1] && lanes[4][i] == bits[2] && lanes[5][i] == bits[3]
  }

  predicate AllCarry(cells: seq<Cell>) { forall k | 0 <= k < |cells| :: Carries(cells[k]) }

  /** The lanes of several periods in a row. */
  function JoinLanes(s: Lanes, t: Lanes): (r: Lanes)
    requires |s| == |t| == 6
    ensures |r| == 6 && forall j | 0 <= j < 6 :: r[j] == s[j] + t[j]
  {
    seq(6, j requires 0 <= j < 6 => s[j] + t[j])
  }

  function Total(cells: seq<Cell>): nat
    decreases |cells|
  {
    if cells == [] then 0 else Total(cells[..|cells| - 1]) + Length(cells[|cells| - 1])
  }

  function LanesOfCells(cells: seq<Cell>): (r: Lanes)
    requires AllCarry(cells)
    ensures |r| == 6 && forall j | 0 <= j < 6 :: |r[j]| == Total(cells)
    decreases |cells|
  {
    if cells == [] then [[], [], [], [], [], []]
    else JoinLanes(LanesOfCells(cells[..|cells| - 1]), cells[|cells| - 1].lanes)
  }

  lemma JoinedSamples(s: Lanes, m: nat, t: Lanes, n: nat)
    requires |s| == |t| == 6 && forall j | 0 <= j < 6 :: |s[j]| == m && |t[j]| == n
    ensures SamplesOf(JoinLanes(s, t), m + n) == SamplesOf(s, m) + SamplesOf(t, n)
  {}

  // ---------- One period ----------

  /** While the clock is low only a fall right at the start counts. */
  lemma {:induction false} WhileLow(prev: Sample, w: seq<Sample>, r: Rise)
    requires w != [] && forall i | 0 <= i < |w| :: !w[i].clk
    ensures Serial(prev, w, r)
            == if prev.clk && r.seen then (r.(seen := false), [ByteEvent(r.dv, r.low, prev.nibble, prev.ctl)]) else (r, [])
    decreases |w|
  {
    var n := |w| - 1;
    if n == 0 {
      EmptySerial(prev, r);
      assert w[..0] == [];
    } else {
      WhileLow(prev, w[..n], r);
    }
    JoinNothing(Serial(prev, w[..n], r).1, SerialStep(Before(prev, w, n), w[n], Serial(prev, w[..n], r).0).1);
  }

  lemma JoinNothing(a: seq<Event>, b: seq<Event>)
    ensures a == [] ==> a + b == b
    ensures b == [] ==> a + b == a
  {}

  /** While it is high only the rise at the start does. */
  lemma {:induction false} WhileHigh(prev: Sample, w: seq<Sample>, r: Rise)
    requires w != [] && !prev.clk && forall i | 0 <= i < |w| :: w[i].clk
    ensures Serial(prev, w, r) == (Rise(true, prev.nibble, prev.ctl), [])
    decreases |w|
  {
    var n := |w| - 1;
    if n == 0 {
      EmptySerial(prev, r);
      assert w[..0] == [];
    } else {
      WhileHigh(prev, w[..n], r);
    }
    JoinNothing(Serial(prev, w[..n], r).1, SerialStep(Before(prev, w, n), w[n], Serial(prev, w[..n], r).0).1);
  }

  function LowHalf(d: nat): nat { d % 16 }

  function HighHalf(d: nat): nat { d / 16 }

  lemma OneBit(x: nat)
    ensures Bit(x % 2 == 1) == x % 2 && x == 2 * (x / 2) + x % 2
  {}

  lemma RestOfSixteen(d: nat, e: nat, m: nat)
    requires d == 16 * e + m && m < 16
    ensures d % 16 == m
  {}

  lemma LowBitsMakeHalf(d: nat)
    ensures var b := LowBits(d); Bit(b[0]) + 2 * Bit(b[1]) + 4 * Bit(b[2]) + 8 * Bit(b[3]) == LowHalf(d)
  {
    hide Bit;
    OneBit(d);
    OneBit(d / 2);
    OneBit(d / 2 / 2);
    OneBit(d / 2 / 2 / 2);
    RestOfSixteen(d, d / 2 / 2 / 2 / 2, 8 * (d / 2 / 2 / 2 % 2) + 4 * (d / 2 / 2 % 2) + 2 * (d / 2 % 2) + d % 2);
  }

  lemma HighIsLowOfHigh(d: nat)
    requires d < 256
    ensures LowHalf(d / 16) == HighHalf(d)
  {}

  lemma AtRise(c: Cell)
    requires Carries(c)
    ensures SampleOf(c.lanes, c.low - 1) == Sample(false, c.symbol.valid, LowHalf(c.symbol.data))
  {
    hide Bit, LowBits, LowHalf;
    LowBitsMakeHalf(c.symbol.data);
  }

  lemma AtFall(c: Cell)
    requires Carries(c)
    ensures SampleOf(c.lanes, Length(c) - 1) == Sample(true, c.symbol.valid != c.symbol.error, HighHalf(c.symbol.data))
  {
    hide Bit, LowBits, LowHalf, HighHalf;
    LowBitsMakeHalf(c.symbol.data / 16);
    HighIsLowOfHigh(c.symbol.data);
  }

  lemma ClockOf(c: Cell, i: nat)
    requires Carries(c) && i < Length(c)
    ensures SampleOf(c.lanes, i).clk == (i >= c.low)
  {
    hide Bit, LowBits;
  }

  /** After a period the decoder remembers its low half and whether there is a byte. */
  lemma OnePeriod(prev: Sample, c: Cell, r: Rise)
    requires Carries(c)
    ensures var w := SamplesOf(c.lanes, Length(c)); var d := c.symbol.data;
      && Serial(prev, w, r)
         == (Rise(true, LowHalf(d), c.symbol.valid),
             if prev.clk && r.seen then [ByteEvent(r.dv, r.low, prev.nibble, prev.ctl)] else [])
      && w[Length(c) - 1] == Sample(true, c.symbol.valid != c.symbol.error, HighHalf(d))
  {
    hide SampleOf, Serial, ByteEvent, LowHalf, HighHalf;
    var w := SamplesOf(c.lanes, Length(c));
    AtRise(c);
    AtFall(c);
    forall i | 0 <= i < Length(c) ensures w[i].clk == (i >= c.low) { ClockOf(c, i); }
    CarriesLanes(c);
    hide Carries;
    var lows, highs := w[..c.low], w[c.low..];
    WhileLow(prev, lows, r);
    WhileHigh(lows[c.low - 1], highs, Serial(prev, lows, r).0);
    SerialJoin(prev, lows, highs, r);
    JoinNothing(Serial(prev, lows, r).1, []);
    assert w == lows + highs;
  }

  // ---------- A whole transmission ----------

  function SymbolsOf(cells: seq<Cell>): (s: seq<Symbol>)
    ensures |s| == |cells| && forall k | 0 <= k < |s| :: s[k] == cells[k].symbol
  {
    seq(|cells|, k requires 0 <= k < |cells| => cells[k].symbol)
  }

  /** What the decoder should say of each symbol. */
  function EventsOf(symbols: seq<Symbol>): (e: seq<Event>)
    ensures |e| == |symbols| && forall k | 0 <= k < |e| :: e[k] == Event(symbols[k].valid, symbols[k].data, symbols[k].error)
  {
    seq(|symbols|, k requires 0 <= k < |symbols| => Event(symbols[k].valid, symbols[k].data, symbols[k].error))
  }

  /** A rise with the low half and a fall with the high half make the byte and its error mark. */
  lemma HalvesMakeByte(s: Symbol)
    requires s.data < 256
    ensures ByteEvent(s.valid, LowHalf(s.data), HighHalf(s.data), s.valid != s.error) == Event(s.valid, s.data, s.error)
  {}

  /** A stream of whole periods that ends with the given symbol, as the decoder has seen it. */
  predicate EndsWith(s: seq<Sample>, last: Symbol, events: seq<Event>) {
    && s != [] && s[|s| - 1] == Sample(true, last.valid != last.error, HighHalf(last.data))
    && Serial(LOW_SAMPLE, s, NO_RISE) == (Rise(true, LowHalf(last.data), last.valid), events)
  }

  lemma FirstPeriod(c: Cell)
    requires Carries(c) && |c.lanes| == 6 && forall j | 0 <= j < 6 :: |c.lanes[j]| == Length(c)
    ensures EndsWith(SamplesOf(c.lanes, Length(c)), c.symbol, [])
  {
    hide SamplesOf, Serial, ByteEvent, LowHalf, HighHalf, Carries;
    CarriesLanes(c);
    OnePeriod(LOW_SAMPLE, c, NO_RISE);
  }

  /** The next period completes the byte of the one before. */
  lemma NextPeriod(s: seq<Sample>, last: Symbol, events: seq<Event>, c: Cell)
    requires EndsWith(s, last, events) && last.data < 256
    requires Carries(c) && |c.lanes| == 6 && forall j | 0 <= j < 6 :: |c.lanes[j]| == Length(c)
    ensures EndsWith(s + SamplesOf(c.lanes, Length(c)), c.symbol, events + [Event(last.valid, last.data, last.error)])
  {
    hide SamplesOf, Serial, ByteEvent, LowHalf, HighHalf, Carries;
    CarriesLanes(c);
    var w := SamplesOf(c.lanes, Length(c));
    SerialJoin(LOW_SAMPLE, s, w, NO_RISE);
    OnePeriod(s[|s| - 1], c, Serial(LOW_SAMPLE, s, NO_RISE).0);
    HalvesMakeByte(last);
  }

  lemma {:induction false} PeriodsDecode(cells: seq<Cell>)
    requires AllCarry(cells) && cells != []
    ensures EndsWith(SamplesOf(LanesOfCells(cells), Total(cells)), cells[|cells| - 1].symbol,
                     EventsOf(SymbolsOf(cells[..|cells| - 1])))
    decreases |cells|
  {
    hide SamplesOf, EndsWith, Carries, LanesOfCells;
    var n := |cells| - 1;
    var init, c := cells[..n], cells[n];
    assert Carries(c);
    CarriesLanes(c);
    LanesOneMore(cells);
    var s, w := SamplesOf(LanesOfCells(init), Total(init)), SamplesOf(c.lanes, Length(c));
    JoinedSamples(LanesOfCells(init), Total(init), c.lanes, Length(c));
    if n == 0 {
      assert s == [] && s + w == w;
      FirstPeriod(c);
      assert EventsOf(SymbolsOf(init)) == [];
    } else {
      PeriodsDecode(init);
      var before := init[n - 1].symbol;
      assert Carries(init[n - 1]);
      CarriesLanes(init[n - 1]);
      NextPeriod(s, before, EventsOf(SymbolsOf(init[..n - 1])), c);
      assert EventsOf(SymbolsOf(init)) == EventsOf(SymbolsOf(init[..n - 1])) + [Event(before.valid, before.data, before.error)];
    }
  }

  lemma LanesOneMore(cells: seq<Cell>)
    requires AllCarry(cells) && cells != []
    ensures var n := |cells| - 1;
      && |cells[n].lanes| == 6
      && LanesOfCells(cells) == JoinLanes(LanesOfCells(cells[..n]), cells[n].lanes)
      && Total(cells) == Total(cells[..n]) + Length(cells[n])
  {}

  lemma CarriesLanes(c: Cell)
    requires Carries(c)
    ensures |c.lanes| == 6 && (forall j | 0 <= j < 6 :: |c.lanes[j]| == Length(c))
    ensures 1 <= c.low < Length(c) && c.symbol.data < 256
  {}

  /** Lanes on which the clock is low. */
  predicate Resting(tail: Lanes, m: nat) {
    |tail| == 6 && (forall j | 0 <= j < 6 :: |tail[j]| == m) && m >= 1 && forall i | 0 <= i < m :: !tail[0][i]
  }

  lemma RestingClock(tail: Lanes, m: nat, i: nat)
    requires Resting(tail, m) && i < m
    ensures !SampleOf(tail, i).clk
  {}

  /** From the bits on the lanes the one-sample decoder gets back exactly the symbols sent. */
  lemma LanesDecode(cells: seq<Cell>, tail: Lanes, m: nat)
    requires AllCarry(cells) && Resting(tail, m)
    ensures Serial(LOW_SAMPLE, SamplesOf(JoinLanes(LanesOfCells(cells), tail), Total(cells) + m), NO_RISE).1
            == EventsOf(SymbolsOf(cells))
  {
    hide SamplesOf, Serial, ByteEvent, Carries, LowHalf, HighHalf, LanesOfCells;
    var s, w := SamplesOf(LanesOfCells(cells), Total(cells)), SamplesOf(tail, m);
    forall i | 0 <= i < m ensures !w[i].clk { RestingClock(tail, m, i); }
    JoinedSamples(LanesOfCells(cells), Total(cells), tail, m);
    SerialJoin(LOW_SAMPLE, s, w, NO_RISE);
    WhileLow(Before(LOW_SAMPLE, s, |s|), w, Serial(LOW_SAMPLE, s, NO_RISE).0);
    if cells == [] {
      assert s == [];
      EmptySerial(LOW_SAMPLE, NO_RISE);
      assert EventsOf(SymbolsOf(cells)) == [] && [] + [] == Serial(LOW_SAMPLE, s + w, NO_RISE).1;
    } else {
      var n := |cells| - 1;
      PeriodsDecode(cells);
      var last := cells[n].symbol;
      assert Carries(cells[n]);
      CarriesLanes(cells[n]);
      HalvesMakeByte(last);
      assert EventsOf(SymbolsOf(cells)) == EventsOf(SymbolsOf(cells[..n])) + [Event(last.valid, last.data, last.error)];
    }
  }

  // ---------- Frames ----------

  function BytesSent(frame: seq<Byte>): (s: seq<Symbol>)
    ensures |s| == |frame| && forall k | 0 <= k < |s| :: s[k] == Symbol(true, frame[k].data, frame[k].error)
  {
    seq(|frame|, k requires 0 <= k < |frame| => Symbol(true, frame[k].data, frame[k].error))
  }

  /** Frames with gaps before, between and after them; an empty frame makes a gap longer. */
  function Sent(frames: seq<seq<Byte>>, gaps: seq<Symbol>): seq<Symbol>
    requires |gaps| == |frames| + 1
    decreases |frames|
  {
    var n := |frames|;
    if n == 0 then [gaps[0]] else Sent(frames[..n - 1], gaps[..n]) + BytesSent(frames[n - 1]) + [gaps[n]]
  }

  function NonEmpty(frames: seq<seq<Byte>>): seq<seq<Byte>>
    decreases |frames|
  {
    if frames == [] then []
    else NonEmpty(frames[..|frames| - 1]) + (if frames[|frames| - 1] == [] then [] else [frames[|frames| - 1]])
  }

  function Seen(symbols: seq<Symbol>): (seq<seq<Byte>>, Option<seq<Byte>>) { Runs(Entries(EventsOf(symbols))) }

  lemma OneSymbolMore(symbols: seq<Symbol>, x: Symbol)
    ensures Seen(symbols + [x]) == RunsStep(Seen(symbols), if x.valid then Valid(Byte(x.data, x.error)) else Idle)
  {
    hide Runs, Entries, RunsStep;
    var e := Event(x.valid, x.data, x.error);
    assert EventsOf(symbols + [x]) == EventsOf(symbols) + [e];
    EntriesOneMore(EventsOf(symbols), [e]);
    RunsOneMore(Entries(EventsOf(symbols)), EntryOf([e]));
  }

  lemma {:induction false} BytesSeen(symbols: seq<Symbol>, frame: seq<Byte>)
    requires Seen(symbols).1 == Some([])
    ensures Seen(symbols + BytesSent(frame)) == (Seen(symbols).0, Some(frame))
    decreases |frame|
  {
    hide Seen;
    if frame == [] {
      assert symbols + BytesSent(frame) == symbols;
    } else {
      var n := |frame| - 1;
      BytesSeen(symbols, frame[..n]);
      var x := Symbol(true, frame[n].data, frame[n].error);
      assert symbols + BytesSent(frame) == (symbols + BytesSent(frame[..n])) + [x];
      OneSymbolMore(symbols + BytesSent(frame[..n]), x);
      assert frame == frame[..n] + [frame[n]];
    }
  }

  lemma {:induction false} SentIsSeen(frames: seq<seq<Byte>>, gaps: seq<Symbol>)
    requires |gaps| == |frames| + 1 && forall k | 0 <= k < |gaps| :: !gaps[k].valid
    ensures Seen(Sent(frames, gaps)) == (NonEmpty(frames), Some([]))
    decreases |frames|
  {
    hide Seen;
    var n := |frames|;
    if n == 0 {
      NothingSeen();
      OneSymbolMore([], gaps[0]);
      assert [] + [gaps[0]] == Sent(frames, gaps);
    } else {
      SentIsSeen(frames[..n - 1], gaps[..n]);
      var more: seq<seq<Byte>> := if frames[n - 1] == [] then [] else [frames[n - 1]];
      assert NonEmpty(frames) == NonEmpty(frames[..n - 1]) + more;
      assert NonEmpty(frames[..n - 1]) + [] == NonEmpty(frames[..n - 1]);
      BytesSeen(Sent(frames[..n - 1], gaps[..n]), frames[n - 1]);
      OneSymbolMore(Sent(frames[..n - 1], gaps[..n]) + BytesSent(frames[n - 1]), gaps[n]);
    }
  }

  lemma NothingSeen()
    ensures Seen([]) == ([], None)
  {
    assert EventsOf([]) == [];
    NothingRecorded();
    assert Entries(EventsOf([])) == [];
    assert Runs(Entries(EventsOf([]))) == ([], None);
  }

  // ---------- A steady clock never breaks the record ----------

  predicate RiseAt(s: seq<Sample>, i: nat) { i < |s| && Rises(Before(LOW_SAMPLE, s, i), s[i]) }

  predicate FallAt(s: seq<Sample>, i: nat) { i < |s| && Falls(Before(LOW_SAMPLE, s, i), s[i]) }

  predicate EdgeSoon(s: seq<Sample>, i: nat) { exists j: nat :: i <= j < i + 1248 && (RiseAt(s, j) || FallAt(s, j)) }

  /** Edges of one kind are at least a word apart, and in every 156 words there is an edge. */
  ghost predicate Steady(s: seq<Sample>) {
    && (forall i: nat, j: nat | i < j < i + 8 :: !(RiseAt(s, i) && RiseAt(s, j)) && !(FallAt(s, i) && FallAt(s, j)))
    && (forall i: nat | i + 1248 <= |s| :: EdgeSoon(s, i))
  }

  /** What the edge count of a word says of its samples. */
  lemma {:induction false} CountedEdges(prev: Sample, w: seq<Sample>)
    ensures var e := Scan(prev, w);
      && (e.rises > 0 <==> exists i: nat :: i < |w| && Rises(Before(prev, w, i), w[i]))
      && (e.falls > 0 <==> exists i: nat :: i < |w| && Falls(Before(prev, w, i), w[i]))
      && (e.rises > 1 ==> exists i: nat, j: nat ::
            i < j < |w| && Rises(Before(prev, w, i), w[i]) && Rises(Before(prev, w, j), w[j]))
      && (e.falls > 1 ==> exists i: nat, j: nat ::
            i < j < |w| && Falls(Before(prev, w, i), w[i]) && Falls(Before(prev, w, j), w[j]))
    decreases |w|
  {
    hide Rises, Falls, Before;
    if w != [] {
      var n := |w| - 1;
      CountedEdges(prev, w[..n]);
      forall i: nat | i < n ensures Before(prev, w[..n], i) == Before(prev, w, i) && w[..n][i] == w[i] {
        BeforeInPrefix(prev, w, n, i);
      }
      RisesOrFalls(Before(prev, w, n), w[n]);
    }
  }

  lemma BeforeInPrefix(prev: Sample, w: seq<Sample>, n: nat, i: nat)
    requires i < n <= |w|
    ensures Before(prev, w[..n], i) == Before(prev, w, i)
  {}

  lemma RisesOrFalls(a: Sample, b: Sample)
    ensures !(Rises(a, b) && Falls(a, b))
  {}

  /** The samples of a word in the whole stream. */
  lemma {:induction false} WordInStream(words: seq<seq<Sample>>, t: nat, i: nat)
    requires WordSized(words) && t < |words| && i < 8
    ensures var s := Flatten(words);
      && 8 * t + i < |s| && s[8 * t + i] == words[t][i]
      && Before(LOW_SAMPLE, s, 8 * t + i) == Before(Previous(words, t), words[t], i)
    decreases |words|
  {
    var n := |words| - 1;
    var init := words[..n];
    if t < n {
      WordInStream(init, t, i);
    } else {
      LastOfFlatten(init);
      assert Flatten(words) == Flatten(init) + words[n];
    }
  }

  lemma QuietMeansNoEdge(words: seq<seq<Sample>>, t: nat, i: nat)
    requires WordSized(words) && t < |words| && i < 8
    requires var e := Scan(Previous(words, t), words[t]); e.rises == 0 && e.falls == 0
    ensures !RiseAt(Flatten(words), 8 * t + i) && !FallAt(Flatten(words), 8 * t + i)
  {
    hide Rises, Falls, Scan;
    WordInStream(words, t, i);
    CountedEdges(Previous(words, t), words[t]);
  }

  /** The last words that count as quiet have no edge. */
  lemma {:induction false} QuietStretch(words: seq<seq<Sample>>, t: nat)
    requires WordSized(words) && |words| - QuietWords(words) <= t < |words|
    ensures QuietWords(words) <= |words|
    ensures var e := Scan(Previous(words, t), words[t]); e.rises == 0 && e.falls == 0
    decreases |words|
  {
    hide Scan;
    var n := |words| - 1;
    QuietAtMost(words);
    if t < n {
      QuietStretch(words[..n], t);
      assert Previous(words[..n], t) == Previous(words, t);
    }
  }

  lemma {:induction false} QuietAtMost(words: seq<seq<Sample>>)
    requires WordSized(words)
    ensures QuietWords(words) <= |words|
    decreases |words|
  {
    hide Scan;
    if words != [] { QuietAtMost(words[..|words| - 1]); }
  }

  lemma SteadyWord(words: seq<seq<Sample>>, t: nat)
    requires WordSized(words) && t < |words| && Steady(Flatten(words))
    ensures !Malformed(Scan(Previous(words, t), words[t]))
  {
    hide Rises, Falls, Scan, Flatten, Before;
    var prev, w := Previous(words, t), words[t];
    CountedEdges(prev, w);
    forall i: nat | i < 8
      ensures RiseAt(Flatten(words), 8 * t + i) <==> Rises(Before(prev, w, i), w[i])
      ensures FallAt(Flatten(words), 8 * t + i) <==> Falls(Before(prev, w, i), w[i])
    {
      WordInStream(words, t, i);
    }
    forall i: nat, j: nat | i < j < 8
      ensures !(Rises(Before(prev, w, i), w[i]) && Rises(Before(prev, w, j), w[j]))
      ensures !(Falls(Before(prev, w, i), w[i]) && Falls(Before(prev, w, j), w[j]))
    {
      assert 8 * t + i < 8 * t + j < 8 * t + i + 8;
    }
  }

  lemma SteadyIsNotQuiet(words: seq<seq<Sample>>, t: nat)
    requires WordSized(words) && t <= |words| && Steady(Flatten(words))
    ensures QuietWords(words[..t]) < 156
  {
    hide Rises, Falls, Scan, Flatten, Before, RiseAt, FallAt;
    var init := words[..t];
    QuietAtMost(init);
    if QuietWords(init) >= 156 {
      var from := 8 * (t - 156);
      assert |Flatten(words)| == 8 * |words|;
      assert EdgeSoon(Flatten(words), from);
      var j: nat :| from <= j < from + 1248 && (RiseAt(Flatten(words), j) || FallAt(Flatten(words), j));
      var k, i := j / 8, j % 8;
      QuietStretch(init, k);
      assert Previous(init, k) == Previous(words, k) && init[k] == words[k];
      QuietMeansNoEdge(words, k, i);
    }
  }

  lemma {:induction false} SteadyNeverBreaks(words: seq<seq<Sample>>, t: nat)
    requires WordSized(words) && t <= |words| && Steady(Flatten(words))
    ensures Break !in WireRun(words[..t]).1
    decreases t
  {
    hide Steady, Flatten, Scan, Malformed, WireStep, QuietWords;
    if t > 0 {
      SteadyNeverBreaks(words, t - 1);
      var now := words[..t];
      assert now[..t - 1] == words[..t - 1] && Previous(now, t - 1) == Previous(words, t - 1);
      SteadyWord(words, t - 1);
      SteadyIsNotQuiet(words, t - 1);
      BreaksExactlyOnGlitchOrTimeout(now);
      RecordLength(now[..t - 1]);
      assert WireRun(now).1[..t - 1] == WireRun(now[..t - 1]).1;
    }
  }

  // ---------- From the wire to the far side ----------

  /** With a steady clock and a far side that is always ready the frames delivered are exactly the
      frames sent, byte for byte with their error marks, whatever the lane advances that make the
      lanes read so. */
  lemma FramesArrive(adv: seq<nat>, inputs: seq<Input>, cells: seq<Cell>, tail: Lanes, m: nat,
                     frames: seq<seq<Byte>>, gaps: seq<Symbol>)
    requires ValidAdvance(adv) && ValidInputs(inputs)
    requires forall t | 0 <= t < |inputs| :: inputs[t].ready
    requires AllCarry(cells) && Resting(tail, m) && Steady(ReadStream(adv, RawWords(inputs)))
    requires ShiftedLanes(adv, RawWords(inputs)) == JoinLanes(LanesOfCells(cells), tail)
    requires |gaps| == |frames| + 1 && forall k | 0 <= k < |gaps| :: !gaps[k].valid
    requires SymbolsOf(cells) == Sent(frames, gaps)
    ensures Payloads(Frames(Delivered(adv, inputs)).0) == NonEmpty(frames)
  {
    hide Receive, Delivered, Frames, Serial, ReadStream, Runs, Payloads, EffectiveWords, WordsOf, Steady, Carries, WireRun, Sent,
         ShiftedLanes, Entries, NonEmpty, SamplesOf, Flatten, Shifted;
    var words := RawWords(inputs);
    var read := WordsOf(EffectiveWords(adv, words));
    StreamIsRead(adv, words);
    SteadyNeverBreaks(read, |read|);
    assert read[..|read|] == read;
    FramesOfSerialDecoder(adv, inputs);
    SameLength(adv, words, cells, tail, m);
    LanesDecode(cells, tail, m);
    SentIsSeen(frames, gaps);
  }

  lemma StreamIsRead(adv: seq<nat>, words: seq<Lanes>)
    requires ValidAdvance(adv) && ValidStream(words)
    ensures Flatten(WordsOf(EffectiveWords(adv, words))) == ReadStream(adv, words)
  {
    hide EffectiveWords, ShiftedLanes, WordsOf, LanesOf, Flatten, SamplesOf;
    FlattenLanes(EffectiveWords(adv, words));
    ReadLanes(adv, words);
  }

  lemma SameLength(adv: seq<nat>, words: seq<Lanes>, cells: seq<Cell>, tail: Lanes, m: nat)
    requires ValidAdvance(adv) && ValidStream(words) && AllCarry(cells) && Resting(tail, m)
    requires ShiftedLanes(adv, words) == JoinLanes(LanesOfCells(cells), tail)
    ensures 8 * |words| == Total(cells) + m
    ensures ReadStream(adv, words) == SamplesOf(JoinLanes(LanesOfCells(cells), tail), Total(cells) + m)
  {
    hide Shifted, SamplesOf, Carries;
    assert |ShiftedLanes(adv, words)[0]| == 8 * |words|;
    assert |JoinLanes(LanesOfCells(cells), tail)[0]| == Total(cells) + m;
  }
}
