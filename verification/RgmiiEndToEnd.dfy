/** From samples to frames: without glitches, timeouts or back-pressure the frames are those of
    a decoder that looks at one sample at a time. */
module RgmiiEndToEnd {
  import opened RgmiiSampling
  import opened RgmiiFrames
  import opened RgmiiTheorems

  /** The record of a series of byte events, one after the other. */
  function Entries(events: seq<Event>): seq<Entry>
    decreases |events|
  {
    if events == [] then [] else Entries(events[..|events| - 1]) + [EntryOf([events[|events| - 1]])]
  }

  /** A record without its quiet clocks. */
  function Squeeze(log: seq<Entry>): seq<Entry>
    decreases |log|
  {
    if log == [] then []
    else
      var n := |log| - 1;
      if log[n] == Quiet then Squeeze(log[..n]) else Squeeze(log[..n]) + [log[n]]
  }

  lemma SqueezeOneMore(log: seq<Entry>, x: Entry)
    ensures Squeeze(log + [x]) == if x == Quiet then Squeeze(log) else Squeeze(log) + [x]
  {
    assert (log + [x])[..|log + [x]| - 1] == log;
  }

  lemma {:induction false} RunsIgnoreQuiet(log: seq<Entry>)
    ensures Runs(Squeeze(log)) == Runs(log)
    decreases |log|
  {
    if log != [] {
      var n := |log| - 1;
      RunsIgnoreQuiet(log[..n]);
      RunsOneMore(Squeeze(log[..n]), log[n]);
    }
  }

  lemma EntriesOneMore(events: seq<Event>, more: seq<Event>)
    requires |more| <= 1
    ensures Entries(events + more) == if more == [] then Entries(events) else Entries(events) + [EntryOf(more)]
  {
    if more == [] {
      assert events + more == events;
    } else {
      assert (events + more)[..|events + more| - 1] == events && more == [more[0]];
    }
  }

  lemma WellFormedClock(v: Wire, w: seq<Sample>)
    requires |w| == 8 && WireStep(v, w).1 != Break
    ensures var e := Scan(v.clocking.prev, w); var d := WordDecode(e, v.rise);
      && !Malformed(e) && |d.1| <= 1
      && WireStep(v, w).0.rise == d.0 && WireStep(v, w).0.clocking.prev == w[7]
      && WireStep(v, w).1 == EntryOf(d.1) && (d.1 == [] <==> EntryOf(d.1) == Quiet)
  {}

  lemma WellFormedOneMore(words: seq<seq<Sample>>)
    requires WordSized(words) && words != []
    ensures var n := |words| - 1;
      && Previous(words, n) == Previous(words[..n], n)
      && (WellFormed(words[..n]) && !Malformed(Scan(Previous(words, n), words[n])) ==> WellFormed(words))
  {
    hide Scan, Malformed;
    var n := |words| - 1;
    forall t | 0 <= t < n ensures Previous(words, t) == Previous(words[..n], t) {}
  }

  lemma UnbrokenInit(words: seq<seq<Sample>>)
    requires WordSized(words) && words != [] && Break !in WireRun(words).1
    ensures var soFar := WireRun(words[..|words| - 1]);
      Break !in soFar.1 && WireStep(soFar.0, words[|words| - 1]).1 != Break
  {
    hide WireStep;
    var n := |words| - 1;
    var soFar := WireRun(words[..n]);
    assert forall k | 0 <= k < |soFar.1| :: soFar.1[k] == WireRun(words).1[k];
    assert WireRun(words).1[|soFar.1|] == WireStep(soFar.0, words[n]).1;
  }

  /** A record without breaks is the record of the word decoder's events. */
  lemma {:induction false} RecordOfEvents(words: seq<seq<Sample>>)
    requires WordSized(words) && Break !in WireRun(words).1
    ensures WellFormed(words)
    ensures var w := WireRun(words); var d := WordEvents(words, NO_RISE);
      w.0.rise == d.0 && w.0.clocking.prev == Previous(words, |words|) && Squeeze(w.1) == Entries(d.1)
    decreases |words|
  {
    hide Scan, WordDecode, WireStep, EntryOf, Malformed, Squeeze, Entries;
    if words == [] {
      NothingRecorded();
    } else {
      hide WellFormed;
      var n := |words| - 1;
      var soFar, d := WireRun(words[..n]), WordEvents(words[..n], NO_RISE);
      UnbrokenInit(words);
      RecordOfEvents(words[..n]);
      WellFormedOneMore(words);
      WellFormedClock(soFar.0, words[n]);
      SqueezeOneMore(soFar.1, WireStep(soFar.0, words[n]).1);
      EntriesOneMore(d.1, WordDecode(Scan(Previous(words, n), words[n]), d.0).1);
    }
  }

  lemma NothingRecorded()
    ensures Squeeze([]) == Entries([]) == []
  {}

  /** With no break in the record and a far side that is always ready, the frames delivered are
      exactly the runs that the one-sample-at-a-time decoder sees on the lanes as read. */
  lemma FramesOfSerialDecoder(adv: seq<nat>, inputs: seq<Input>)
    requires ValidAdvance(adv) && ValidInputs(inputs)
    requires forall t | 0 <= t < |inputs| :: inputs[t].ready
    requires Break !in Record(adv, inputs)
    ensures Payloads(Frames(Delivered(adv, inputs)).0)
            == Runs(Entries(Serial(LOW_SAMPLE, ReadStream(adv, RawWords(inputs)), NO_RISE).1)).0
  {
    hide Receive, Delivered, Frames, WireRun, Serial, ReadStream, WordEvents, Runs, Payloads, EffectiveWords, WordsOf, WellFormed;
    var words := RawWords(inputs);
    NoFaultWhenReady(adv, inputs);
    NothingLostWithoutFault(adv, inputs);
    RecordOfEvents(WordsOf(EffectiveWords(adv, words)));
    DecoderRefinesSerial(adv, words);
    RunsIgnoreQuiet(Record(adv, inputs));
  }
}
