/** The frame protocol of the gigabit receiver as a transition function on its registers, and
    the record of what was on the wire that it is measured against. */
module RgmiiFrames {
  import opened Options
  import opened RgmiiSampling

  const IDLE_LIMIT := 156

  datatype Byte = Byte(data: nat, error: bool)

  datatype Beat = Beat(data: nat, last: bool, error: bool)

  // ---------- What is on the wire ----------

  /** One clock of the wire: a malformed word or timeout, no byte, an idle byte, or a valid byte. */
  datatype Entry = Break | Quiet | Idle | Valid(b: Byte)

  /** Registers that depend on the samples alone. */
  datatype Clocking = Clocking(prev: Sample, idle: nat)

  const FIRST_CLOCKING := Clocking(LOW_SAMPLE, 0)

  predicate Bad(c: Clocking, e: Edges) { Malformed(e) || c.idle == IDLE_LIMIT }

  function NextClocking(c: Clocking, w: seq<Sample>, e: Edges): Clocking
    requires |w| == 8
  {
    Clocking(w[7],
             if e.rises > 0 || e.falls > 0 then 0 else if c.idle != IDLE_LIMIT then c.idle + 1 else c.idle)
  }

  /** A decoder on its own, told of nothing but the samples. */
  datatype Wire = Wire(clocking: Clocking, rise: Rise)

  const FIRST_WIRE := Wire(FIRST_CLOCKING, NO_RISE)

  function EntryOf(events: seq<Event>): Entry {
    if events == [] then Quiet
    else if events[0].valid then Valid(Byte(events[0].data, events[0].error))
    else Idle
  }

  /** The record entry for a word with edges e, and the rise it leaves. */
  function Observe(r: Rise, e: Edges, bad: bool): (Rise, Entry) {
    if bad then (r.(seen := false), Break)
    else (WordDecode(e, r).0, EntryOf(WordDecode(e, r).1))
  }

  function WireStep(v: Wire, w: seq<Sample>): (Wire, Entry)
    requires |w| == 8
  {
    var e := Scan(v.clocking.prev, w);
    var seen := Observe(v.rise, e, Bad(v.clocking, e));
    (Wire(NextClocking(v.clocking, w, e), seen.0), seen.1)
  }

  /** The runs of valid bytes between two idle bytes that nothing interrupts, and the run
      under way, if an idle byte has started one. */
  function Runs(log: seq<Entry>): (seq<seq<Byte>>, Option<seq<Byte>>)
    decreases |log|
  {
    if log == [] then ([], None) else RunsStep(Runs(log[..|log| - 1]), log[|log| - 1])
  }

  function RunsStep(r: (seq<seq<Byte>>, Option<seq<Byte>>), x: Entry): (seq<seq<Byte>>, Option<seq<Byte>>) {
    match x
    case Break => (r.0, None)
    case Quiet => r
    case Idle => (if r.1.Some? && r.1.value != [] then r.0 + [r.1.value] else r.0, Some([]))
    case Valid(b) => (r.0, if r.1.Some? then Some(r.1.value + [b]) else None)
  }

  // ---------- The frame registers ----------

  datatype Frame = Frame(
    rise: Rise, pending: bool, data: Byte, frameError: bool, closing: bool, acquired: bool)

  const FIRST_FRAME := Frame(NO_RISE, false, Byte(0, false), false, false, false)

  /** One clock of the frame registers: the new registers, the beat loaded into the output, if
      any, and whether `fault` is set. */
  function FrameTick(f: Frame, e: Edges, bad: bool, available: bool): (Frame, seq<Beat>, bool) {
    if f.closing then
      if available then
        (f.(closing := false, pending := false, rise := f.rise.(seen := false), acquired := false, frameError := false),
         [Beat(f.data.data, true, true)], false)
      else (f, [], false)
    else if !f.acquired then
      if bad then (f.(rise := f.rise.(seen := false)), [], false)
      else
        var d := WordDecode(e, f.rise);
        (f.(rise := d.0, acquired := d.1 != [] && !d.1[0].valid), [], false)
    else if bad then
      (f.(closing := f.pending, rise := f.rise.(seen := false), acquired := false), [], f.pending || Malformed(e))
    else
      var d := WordDecode(e, f.rise);
      ByteTick(f.(rise := d.0), d.1, available)
  }

  /** An acquired receiver with a byte event, or none. */
  function ByteTick(f: Frame, events: seq<Event>, available: bool): (Frame, seq<Beat>, bool) {
    if events == [] then (f, [], false)
    else
      var v := events[0];
      var stall := f.pending && !available;
      (f.(pending := v.valid,
          data := if v.valid then Byte(v.data, v.error) else f.data,
          frameError := if !v.valid && available then false else f.frameError || stall,
          closing := stall && !v.valid),
       if f.pending && available then [Beat(f.data.data, !v.valid, f.data.error || f.frameError)] else [],
       stall)
  }

  // ---------- The whole receiver ----------

  datatype Output = Output(valid: bool, beat: Beat)

  datatype Receiver = Receiver(history: Lanes, clocking: Clocking, frame: Frame, out: Output, fault: bool)

  const RESET := Receiver(SILENT, FIRST_CLOCKING, FIRST_FRAME, Output(false, Beat(0, false, false)), false)

  predicate Available(out: Output, ready: bool) { !out.valid || ready }

  function NextOutput(out: Output, load: seq<Beat>, ready: bool): Output {
    if load != [] then Output(true, load[0]) else if ready then out.(valid := false) else out
  }

  function Clocked(adv: seq<nat>, r: Receiver, raw: Lanes, ready: bool): Receiver
    requires ValidAdvance(adv) && ValidLanes(r.history) && ValidLanes(raw)
  {
    var w := SamplesOf(Effective(adv, r.history, raw), 8);
    var e := Scan(r.clocking.prev, w);
    var t := FrameTick(r.frame, e, Bad(r.clocking, e), Available(r.out, ready));
    Receiver(raw, NextClocking(r.clocking, w, e), t.0, NextOutput(r.out, t.1, ready), r.fault || t.2)
  }

  /** An offered beat is held unchanged until it is accepted. */
  lemma HeldUntilAccepted(adv: seq<nat>, r: Receiver, raw: Lanes)
    requires ValidAdvance(adv) && ValidLanes(r.history) && ValidLanes(raw) && r.out.valid
    ensures Clocked(adv, r, raw, false).out == r.out
  {}

  // ---------- Runs of the receiver ----------

  datatype Input = Input(raw: Lanes, ready: bool)

  predicate ValidInputs(inputs: seq<Input>) { forall t | 0 <= t < |inputs| :: ValidLanes(inputs[t].raw) }

  function Receive(adv: seq<nat>, inputs: seq<Input>): (r: Receiver)
    requires ValidAdvance(adv) && ValidInputs(inputs)
    ensures r.history == (if inputs == [] then SILENT else inputs[|inputs| - 1].raw)
    decreases |inputs|
  {
    if inputs == [] then RESET
    else
      var n := |inputs| - 1;
      Clocked(adv, Receive(adv, inputs[..n]), inputs[n].raw, inputs[n].ready)
  }

  function RawWords(inputs: seq<Input>): (words: seq<Lanes>)
    requires ValidInputs(inputs)
    ensures |words| == |inputs| && ValidStream(words)
    ensures forall t | 0 <= t < |inputs| :: words[t] == inputs[t].raw
  {
    seq(|inputs|, t requires 0 <= t < |inputs| => inputs[t].raw)
  }

  /** The wire decoder run over words of samples, and its record. */
  function WireRun(words: seq<seq<Sample>>): (Wire, seq<Entry>)
    requires WordSized(words)
    decreases |words|
  {
    if words == [] then (FIRST_WIRE, [])
    else
      var n := |words| - 1;
      var soFar := WireRun(words[..n]);
      var step := WireStep(soFar.0, words[n]);
      (step.0, soFar.1 + [step.1])
  }

  /** The record of the wire, as read with the given lane advances. */
  function Record(adv: seq<nat>, inputs: seq<Input>): seq<Entry>
    requires ValidAdvance(adv) && ValidInputs(inputs)
  {
    WireRun(WordsOf(EffectiveWords(adv, RawWords(inputs)))).1
  }

  /** The beats that the far side has accepted. */
  function Accepted(adv: seq<nat>, inputs: seq<Input>): seq<Beat>
    requires ValidAdvance(adv) && ValidInputs(inputs)
    decreases |inputs|
  {
    if inputs == [] then []
    else
      var n := |inputs| - 1;
      var out := Receive(adv, inputs[..n]).out;
      Accepted(adv, inputs[..n]) + (if inputs[n].ready then Offer(out) else [])
  }

  /** The beat on offer, if any. */
  function Offer(out: Output): seq<Beat> { if out.valid then [out.beat] else [] }

  /** The accepted beats and the one on offer. */
  function Delivered(adv: seq<nat>, inputs: seq<Input>): seq<Beat>
    requires ValidAdvance(adv) && ValidInputs(inputs)
  {
    Accepted(adv, inputs) + Offer(Receive(adv, inputs).out)
  }

  /** The complete frames in a series of beats, and the beats of the frame still open. */
  function Frames(beats: seq<Beat>): (seq<seq<Beat>>, seq<Beat>)
    decreases |beats|
  {
    if beats == [] then ([], [])
    else FramesStep(Frames(beats[..|beats| - 1]), beats[|beats| - 1])
  }

  function FramesStep(f: (seq<seq<Beat>>, seq<Beat>), b: Beat): (seq<seq<Beat>>, seq<Beat>) {
    if b.last then (f.0 + [f.1 + [b]], []) else (f.0, f.1 + [b])
  }

  /** A frame is clean when its last beat carries no error. */
  predicate IsClean(frame: seq<Beat>) { frame != [] && !frame[|frame| - 1].error }

  function Payload(frame: seq<Beat>): (bytes: seq<Byte>)
    ensures |bytes| == |frame| && forall i | 0 <= i < |frame| :: bytes[i] == Byte(frame[i].data, frame[i].error)
  {
    seq(|frame|, i requires 0 <= i < |frame| => Byte(frame[i].data, frame[i].error))
  }

  /** The bytes of the clean frames. */
  function Clean(frames: seq<seq<Beat>>): seq<seq<Byte>>
    decreases |frames|
  {
    if frames == [] then []
    else
      var n := |frames| - 1;
      Clean(frames[..n]) + (if IsClean(frames[n]) then [Payload(frames[n])] else [])
  }

  /** The bytes of all frames. */
  function Payloads(frames: seq<seq<Beat>>): (p: seq<seq<Byte>>)
    ensures |p| == |frames| && forall i | 0 <= i < |frames| :: p[i] == Payload(frames[i])
  {
    seq(|frames|, i requires 0 <= i < |frames| => Payload(frames[i]))
  }

  /** xs can be got from ys by leaving elements out. */
  predicate Subsequence<T(==)>(xs: seq<T>, ys: seq<T>)
    decreases |ys|
  {
    || xs == []
    || (ys != [] && Subsequence(xs, ys[..|ys| - 1]))
    || (ys != [] && xs[|xs| - 1] == ys[|ys| - 1] && Subsequence(xs[..|xs| - 1], ys[..|ys| - 1]))
  }
}
