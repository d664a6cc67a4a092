/** Edge decoding of the gigabit receiver: eight samples per clock, against a decoder that
    looks at one sample at a time. */
module RgmiiSampling {

  /** One sampling instant: the received clock, RX_CTL and the four data lanes. */
  datatype Sample = Sample(clk: bool, ctl: bool, nibble: nat)

  const LOW_SAMPLE := Sample(false, false, 0)

  /** What a falling edge makes of the rise before it. */
  datatype Event = Event(valid: bool, data: nat, error: bool)

  /** The registers that remember a rise whose fall has not come yet. */
  datatype Rise = Rise(seen: bool, low: nat, dv: bool)

  const NO_RISE := Rise(false, 0, false)

  predicate Rises(before: Sample, now: Sample) { !before.clk && now.clk }

  predicate Falls(before: Sample, now: Sample) { before.clk && !now.clk }

  function ByteEvent(valid: bool, low: nat, high: nat, control: bool): Event {
    Event(valid, low + 16 * high, valid != control)
  }

  /** The sample before position i of a word, which for position 0 is the last one of the word before. */
  function Before(prev: Sample, w: seq<Sample>, i: nat): Sample
    requires i <= |w|
  {
    if i == 0 then prev else w[i - 1]
  }

  // ---------- One sample at a time ----------

  function SerialStep(before: Sample, now: Sample, r: Rise): (Rise, seq<Event>) {
    if Rises(before, now) then (Rise(true, before.nibble, before.ctl), [])
    else if Falls(before, now) && r.seen then
      (r.(seen := false), [ByteEvent(r.dv, r.low, before.nibble, before.ctl)])
    else (r, [])
  }

  function Serial(prev: Sample, w: seq<Sample>, r: Rise): (Rise, seq<Event>)
    decreases |w|
  {
    if w == [] then (r, [])
    else
      var n := |w| - 1;
      var soFar := Serial(prev, w[..n], r);
      var step := SerialStep(Before(prev, w, n), w[n], soFar.0);
      (step.0, soFar.1 + step.1)
  }

  lemma {:induction false} SerialJoin(prev: Sample, w: seq<Sample>, v: seq<Sample>, r: Rise)
    ensures var first := Serial(prev, w, r); var second := Serial(Before(prev, w, |w|), v, first.0);
      Serial(prev, w + v, r) == (second.0, first.1 + second.1)
    decreases |v|
  {
    var first := Serial(prev, w, r);
    if v == [] {
      assert w + v == w && first.1 + [] == first.1;
    } else {
      var n := |v| - 1;
      assert (w + v)[..|w + v| - 1] == w + v[..n];
      SerialJoin(prev, w, v[..n], r);
      var head := Serial(Before(prev, w, |w|), v[..n], first.0);
      var step := SerialStep(Before(prev, w + v, |w| + n), v[n], head.0);
      assert Before(prev, w + v, |w| + n) == Before(Before(prev, w, |w|), v, n);
      assert (first.1 + head.1) + step.1 == first.1 + (head.1 + step.1);
    }
  }

  // ---------- A word at a time ----------

  /** The edges of one word: how many, and for each kind the last position and the sample before it. */
  datatype Edges = Edges(rises: nat, falls: nat, riseIndex: nat, fallIndex: nat, atRise: Sample, atFall: Sample)

  function Scan(prev: Sample, w: seq<Sample>): Edges
    decreases |w|
  {
    if w == [] then Edges(0, 0, 0, 0, LOW_SAMPLE, LOW_SAMPLE)
    else
      var n := |w| - 1;
      var e := Scan(prev, w[..n]);
      var before := Before(prev, w, n);
      if Rises(before, w[n]) then e.(rises := e.rises + 1, riseIndex := n, atRise := before)
      else if Falls(before, w[n]) then e.(falls := e.falls + 1, fallIndex := n, atFall := before)
      else e
  }

  predicate Malformed(e: Edges) { e.rises > 1 || e.falls > 1 }

  /** A rise and, later in the same word, its fall. */
  predicate SameWord(e: Edges) { e.rises > 0 && e.falls > 0 && e.riseIndex < e.fallIndex }

  /** What the edges of a word add to the pending rise, and the event they complete. */
  function WordDecode(e: Edges, r: Rise): (Rise, seq<Event>) {
    var same := SameWord(e);
    var latched := if e.rises > 0 then Rise(true, e.atRise.nibble, e.atRise.ctl) else r;
    (if e.falls > 0 then latched.(seen := e.rises > 0 && !same) else latched,
     if e.falls > 0 && (same || r.seen) then
       [ByteEvent(if same then e.atRise.ctl else r.dv, if same then e.atRise.nibble else r.low,
                  e.atFall.nibble, e.atFall.ctl)]
     else [])
  }

  lemma {:induction false} ScanGrows(prev: Sample, w: seq<Sample>)
    ensures var e := Scan(prev, w);
      && (e.rises > 0 ==> e.riseIndex < |w|)
      && (e.falls > 0 ==> e.fallIndex < |w|)
    decreases |w|
  {
    if w != [] { ScanGrows(prev, w[..|w| - 1]); }
  }

  /** With at most one edge of each kind, a word decodes exactly as its samples do one by one. */
  lemma {:induction false} WordIsSerial(prev: Sample, w: seq<Sample>, r: Rise)
    requires !Malformed(Scan(prev, w))
    ensures WordDecode(Scan(prev, w), r) == Serial(prev, w, r)
    decreases |w|
  {
    if w != [] {
      var n := |w| - 1;
      ScanGrows(prev, w[..n]);
      WordIsSerial(prev, w[..n], r);
      var soFar := Serial(prev, w[..n], r);
      var step := SerialStep(Before(prev, w, n), w[n], soFar.0);
      assert soFar.1 + [] == soFar.1 && [] + step.1 == step.1;
    }
  }

  // ---------- Whole streams of words ----------

  function Flatten(words: seq<seq<Sample>>): (s: seq<Sample>)
    ensures (forall t | 0 <= t < |words| :: |words[t]| == 8) ==> |s| == 8 * |words|
    decreases |words|
  {
    if words == [] then [] else Flatten(words[..|words| - 1]) + words[|words| - 1]
  }

  predicate WordSized(words: seq<seq<Sample>>) { forall t | 0 <= t < |words| :: |words[t]| == 8 }

  /** The sample in the `previous` register when word t comes in. */
  function Previous(words: seq<seq<Sample>>, t: nat): Sample
    requires t <= |words| && WordSized(words)
  {
    if t == 0 then LOW_SAMPLE else words[t - 1][7]
  }

  predicate WellFormed(words: seq<seq<Sample>>)
    requires WordSized(words)
  {
    forall t | 0 <= t < |words| :: !Malformed(Scan(Previous(words, t), words[t]))
  }

  /** Decoding word by word, carrying the pending rise from each word to the next. */
  function WordEvents(words: seq<seq<Sample>>, r: Rise): (Rise, seq<Event>)
    requires WordSized(words)
    decreases |words|
  {
    if words == [] then (r, [])
    else
      var n := |words| - 1;
      var soFar := WordEvents(words[..n], r);
      var step := WordDecode(Scan(Previous(words, n), words[n]), soFar.0);
      (step.0, soFar.1 + step.1)
  }

  /** On every stream of well-formed words, word-parallel decoding gives the events of the
      serial decoder, pairs that straddle words included. */
  lemma {:induction false} WordsAreSerial(words: seq<seq<Sample>>, r: Rise)
    requires WordSized(words) && WellFormed(words)
    ensures WordEvents(words, r) == Serial(LOW_SAMPLE, Flatten(words), r)
    decreases |words|
  {
    hide Serial, Scan, WordDecode, Before, Malformed;
    if words == [] {
      EmptySerial(LOW_SAMPLE, r);
    } else {
      var n := |words| - 1;
      var init, last := words[..n], words[n];
      forall t | 0 <= t < n ensures Previous(init, t) == Previous(words, t) {}
      WordsAreSerial(init, r);
      var soFar := WordEvents(init, r);
      WordIsSerial(Previous(words, n), last, soFar.0);
      LastOfFlatten(init);
      SerialJoin(LOW_SAMPLE, Flatten(init), last, r);
    }
  }

  lemma EmptySerial(prev: Sample, r: Rise)
    ensures Serial(prev, [], r) == (r, [])
  {}

  lemma LastOfFlatten(words: seq<seq<Sample>>)
    requires WordSized(words)
    ensures Before(LOW_SAMPLE, Flatten(words), |Flatten(words)|) == Previous(words, |words|)
  {}

  // ---------- Lanes and their sample advance ----------

  /** One clock's input: eight samples, oldest first, of the clock, RX_CTL and four data lanes. */
  type Lanes = seq<seq<bool>>

  predicate ValidLanes(w: Lanes) { |w| == 6 && forall j | 0 <= j < 6 :: |w[j]| == 8 }

  predicate ValidStream(words: seq<Lanes>) { forall t | 0 <= t < |words| :: ValidLanes(words[t]) }

  /** By how many samples each lane is read late; the clock lane never is. */
  predicate ValidAdvance(adv: seq<nat>) { |adv| == 6 && adv[0] == 0 && forall j | 0 <= j < 6 :: adv[j] <= 7 }

  predicate NoAdvance(adv: seq<nat>) { forall j | 0 <= j < |adv| :: adv[j] == 0 }

  const SILENT: Lanes := [LOW8, LOW8, LOW8, LOW8, LOW8, LOW8]

  const LOW8 := [false, false, false, false, false, false, false, false]

  function Effective(adv: seq<nat>, history: Lanes, raw: Lanes): (w: Lanes)
    requires ValidAdvance(adv) && ValidLanes(history) && ValidLanes(raw)
    ensures ValidLanes(w)
  {
    if NoAdvance(adv) then raw
    else seq(6, j requires 0 <= j < 6 => history[j][adv[j]..] + raw[j][..adv[j]])
  }

  function Bit(b: bool): nat { if b then 1 else 0 }

  function SampleOf(lanes: Lanes, i: nat): Sample
    requires |lanes| == 6 && forall j | 0 <= j < 6 :: i < |lanes[j]|
  {
    Sample(lanes[0][i], lanes[1][i], Bit(lanes[2][i]) + 2 * Bit(lanes[3][i]) + 4 * Bit(lanes[4][i]) + 8 * Bit(lanes[5][i]))
  }

  function SamplesOf(lanes: Lanes, n: nat): (w: seq<Sample>)
    requires |lanes| == 6 && forall j | 0 <= j < 6 :: |lanes[j]| == n
    ensures |w| == n && forall i | 0 <= i < n :: w[i] == SampleOf(lanes, i)
  {
    seq(n, i requires 0 <= i < n => SampleOf(lanes, i))
  }

  function LaneStream(words: seq<Lanes>, j: nat): (s: seq<bool>)
    requires ValidStream(words) && j < 6
    ensures |s| == 8 * |words|
    decreases |words|
  {
    if words == [] then [] else LaneStream(words[..|words| - 1], j) + words[|words| - 1][j]
  }

  function History(words: seq<Lanes>, t: nat): (w: Lanes)
    requires ValidStream(words) && t <= |words|
    ensures ValidLanes(w)
  {
    if t == 0 then SILENT else words[t - 1]
  }

  function EffectiveWords(adv: seq<nat>, words: seq<Lanes>): (e: seq<Lanes>)
    requires ValidAdvance(adv) && ValidStream(words)
    ensures |e| == |words| && ValidStream(e)
    ensures forall t | 0 <= t < |words| :: e[t] == Effective(adv, History(words, t), words[t])
  {
    seq(|words|, t requires 0 <= t < |words| => Effective(adv, History(words, t), words[t]))
  }

  /** The stream a lane is really read from: with no advance anywhere the lane itself, otherwise
      the lane one word late and then `adv[j]` samples early, across word boundaries. */
  function Shifted(adv: seq<nat>, words: seq<Lanes>, j: nat): (s: seq<bool>)
    requires ValidAdvance(adv) && ValidStream(words) && j < 6
    ensures |s| == 8 * |words|
  {
    if NoAdvance(adv) then LaneStream(words, j) else Window(LOW8 + LaneStream(words, j), adv[j], |words|)
  }

  /** So many words of a stream, from a given sample on. */
  function Window(s: seq<bool>, a: nat, words: nat): (w: seq<bool>)
    requires a + 8 * words <= |s|
    ensures |w| == 8 * words
  {
    s[a..a + 8 * words]
  }

  lemma ShiftOneWord(was: seq<bool>, last: seq<bool>, n: nat, a: nat)
    requires |was| == 8 * n + 8 && |last| == 8 && a <= 7
    ensures Window(was + last, a, n + 1) == Window(was, a, n) + (was[8 * n..][a..] + last[..a])
  {}

  lemma EffectivePrefix(adv: seq<nat>, words: seq<Lanes>)
    requires ValidAdvance(adv) && ValidStream(words) && words != []
    ensures EffectiveWords(adv, words)[..|words| - 1] == EffectiveWords(adv, words[..|words| - 1])
  {
    forall t | 0 <= t < |words| - 1 ensures History(words, t) == History(words[..|words| - 1], t) {}
  }

  lemma {:induction false} AdvanceShiftsLanes(adv: seq<nat>, words: seq<Lanes>, j: nat)
    requires ValidAdvance(adv) && ValidStream(words) && j < 6
    ensures LaneStream(EffectiveWords(adv, words), j) == Shifted(adv, words, j)
    decreases |words|
  {
    if words != [] {
      EffectivePrefix(adv, words);
      AdvanceShiftsLanes(adv, words[..|words| - 1], j);
      ShiftedGrows(adv, words, j);
    }
  }

  lemma ShiftedGrows(adv: seq<nat>, words: seq<Lanes>, j: nat)
    requires ValidAdvance(adv) && ValidStream(words) && j < 6 && words != []
    ensures Shifted(adv, words, j)
            == Shifted(adv, words[..|words| - 1], j) + EffectiveWords(adv, words)[|words| - 1][j]
  {
    hide NoAdvance, History, LaneStream, Effective, Window;
    var n := |words| - 1;
    var last := words[n];
    assert History(words, n) == History(words[..n], n) by { SameHistory(words); }
    var was := LOW8 + LaneStream(words[..n], j);
    LastWord(words[..n], j);
    LaneGrows(words, j);
    EffectiveLane(adv, History(words, n), last, j);
    ShiftOneWord(was, last[j], n, adv[j]);
  }

  lemma SameHistory(words: seq<Lanes>)
    requires ValidStream(words) && words != []
    ensures History(words, |words| - 1) == History(words[..|words| - 1], |words| - 1)
  {}

  lemma LaneGrows(words: seq<Lanes>, j: nat)
    requires ValidStream(words) && j < 6 && words != []
    ensures var n := |words| - 1;
      && |words[n][j]| == 8
      && LaneStream(words, j) == LaneStream(words[..n], j) + words[n][j]
      && LOW8 + LaneStream(words, j) == (LOW8 + LaneStream(words[..n], j)) + words[n][j]
  {}

  lemma EffectiveLane(adv: seq<nat>, history: Lanes, raw: Lanes, j: nat)
    requires ValidAdvance(adv) && ValidLanes(history) && ValidLanes(raw) && j < 6
    ensures adv[j] <= 7 && |history[j]| == 8 == |raw[j]|
    ensures Effective(adv, history, raw)[j] == if NoAdvance(adv) then raw[j] else history[j][adv[j]..] + raw[j][..adv[j]]
  {}

  lemma LastWord(words: seq<Lanes>, j: nat)
    requires ValidStream(words) && j < 6
    ensures (LOW8 + LaneStream(words, j))[8 * |words|..] == History(words, |words|)[j]
  {
    if words != [] {
      var n := |words| - 1;
      assert LaneStream(words, j) == LaneStream(words[..n], j) + words[n][j];
    }
  }

  function WordsOf(words: seq<Lanes>): (w: seq<seq<Sample>>)
    requires ValidStream(words)
    ensures |w| == |words| && WordSized(w)
    ensures forall t | 0 <= t < |words| :: w[t] == SamplesOf(words[t], 8)
  {
    seq(|words|, t requires 0 <= t < |words| => SamplesOf(words[t], 8))
  }

  function LanesOf(words: seq<Lanes>): (s: Lanes)
    requires ValidStream(words)
    ensures |s| == 6 && forall j | 0 <= j < 6 :: s[j] == LaneStream(words, j)
  {
    seq(6, j requires 0 <= j < 6 => LaneStream(words, j))
  }

  lemma SamplesGrow(s: Lanes, t: Lanes, w: Lanes, n: nat)
    requires |s| == |t| == |w| == 6
    requires forall j | 0 <= j < 6 :: |t[j]| == n && |w[j]| == 8 && s[j] == t[j] + w[j]
    ensures SamplesOf(s, n + 8) == SamplesOf(t, n) + SamplesOf(w, 8)
  {}

  lemma {:induction false} FlattenLanes(words: seq<Lanes>)
    requires ValidStream(words)
    ensures Flatten(WordsOf(words)) == SamplesOf(LanesOf(words), 8 * |words|)
    decreases |words|
  {
    hide SamplesOf;
    if words != [] {
      var n := |words| - 1;
      var init := words[..n];
      FlattenLanes(init);
      assert WordsOf(words)[..n] == WordsOf(init);
      forall j | 0 <= j < 6 ensures LanesOf(words)[j] == LanesOf(init)[j] + words[n][j] { LaneGrows(words, j); }
      SamplesGrow(LanesOf(words), LanesOf(init), words[n], 8 * n);
    }
  }

  function ShiftedLanes(adv: seq<nat>, words: seq<Lanes>): (s: Lanes)
    requires ValidAdvance(adv) && ValidStream(words)
    ensures |s| == 6 && forall j | 0 <= j < 6 :: |s[j]| == 8 * |words|
    ensures forall j | 0 <= j < 6 :: s[j] == Shifted(adv, words, j)
  {
    seq(6, j requires 0 <= j < 6 => Shifted(adv, words, j))
  }

  /** The lanes as they are really read, as one stream of samples. */
  function ReadStream(adv: seq<nat>, words: seq<Lanes>): (s: seq<Sample>)
    requires ValidAdvance(adv) && ValidStream(words)
  {
    SamplesOf(ShiftedLanes(adv, words), 8 * |words|)
  }

  /** The decoder with any lane advances refines the serial decoder on the shifted lanes. */
  lemma DecoderRefinesSerial(adv: seq<nat>, words: seq<Lanes>)
    requires ValidAdvance(adv) && ValidStream(words)
    requires WellFormed(WordsOf(EffectiveWords(adv, words)))
    ensures WordEvents(WordsOf(EffectiveWords(adv, words)), NO_RISE) == Serial(LOW_SAMPLE, ReadStream(adv, words), NO_RISE)
  {
    hide EffectiveWords, ShiftedLanes, WordsOf, LanesOf, Flatten, WordEvents, Serial, SamplesOf;
    var e := EffectiveWords(adv, words);
    WordsAreSerial(WordsOf(e), NO_RISE);
    FlattenLanes(e);
    ReadLanes(adv, words);
  }

  lemma ReadLanes(adv: seq<nat>, words: seq<Lanes>)
    requires ValidAdvance(adv) && ValidStream(words)
    ensures LanesOf(EffectiveWords(adv, words)) == ShiftedLanes(adv, words)
  {
    hide EffectiveWords, Shifted;
    var e := EffectiveWords(adv, words);
    forall j | 0 <= j < 6 ensures LanesOf(e)[j] == Shifted(adv, words, j) { AdvanceShiftsLanes(adv, words, j); }
  }

  // ---------- The bit trick of the malformed test ----------

  function CountBits(x: bv8): nat {
    Bit(x & 1 != 0) + Bit(x & 2 != 0) + Bit(x & 4 != 0) + Bit(x & 8 != 0)
    + Bit(x & 16 != 0) + Bit(x & 32 != 0) + Bit(x & 64 != 0) + Bit(x & 128 != 0)
  }

  /** `x & (x - 1)` is non-zero exactly when more than one bit of x is set. */
  lemma ClearingLowestBit(x: bv8)
    ensures x & (x - 1) != 0 <==> CountBits(x) > 1
  {}
}
