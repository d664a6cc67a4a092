/** What the frame protocol of the gigabit receiver promises about every run. */
module RgmiiTheorems {
  import opened Options
  import opened RgmiiSampling
  import opened RgmiiFrames

  // ---------- Runs are the maximal runs of the record ----------

  /** The valid bytes of a stretch of the record. */
  function BytesOf(log: seq<Entry>): seq<Byte>
    decreases |log|
  {
    if log == [] then []
    else
      var rest := BytesOf(log[..|log| - 1]);
      match log[|log| - 1]
      case Valid(b) => rest + [b]
      case _ => rest
  }

  /** After the idle byte at position i, up to j, nothing but valid bytes and quiet clocks, and
      the valid bytes are `run`. */
  predicate Uninterrupted(log: seq<Entry>, i: nat, j: nat, run: seq<Byte>) {
    && i < j <= |log| && log[i] == Idle
    && (forall k | i < k < j :: log[k] == Quiet || log[k].Valid?)
    && BytesOf(log[i + 1..j]) == run
  }

  /** A run between two idle bytes. */
  predicate IsRun(log: seq<Entry>, i: nat, j: nat, run: seq<Byte>) {
    run != [] && Uninterrupted(log, i, j, run) && j < |log| && log[j] == Idle
  }

  lemma UninterruptedInit(log: seq<Entry>, i: nat, j: nat, run: seq<Byte>)
    requires log != [] && j < |log|
    ensures Uninterrupted(log, i, j, run) <==> Uninterrupted(log[..|log| - 1], i, j, run)
    ensures j < |log| - 1 ==> (IsRun(log, i, j, run) <==> IsRun(log[..|log| - 1], i, j, run))
  {
    if i < j { assert log[i + 1..j] == log[..|log| - 1][i + 1..j]; }
  }

  lemma UninterruptedGrows(log: seq<Entry>, i: nat, run: seq<Byte>, x: Entry)
    requires Uninterrupted(log, i, |log|, run)
    ensures x == Quiet ==> Uninterrupted(log + [x], i, |log| + 1, run)
    ensures x.Valid? ==> Uninterrupted(log + [x], i, |log| + 1, run + [x.b])
  {
    var s := (log + [x])[i + 1..|log| + 1];
    assert s[..|s| - 1] == log[i + 1..|log|];
  }

  /** The run under way, if any, is what follows the last idle byte uninterrupted. */
  lemma {:induction false} CurrentRun(log: seq<Entry>, i: nat, run: seq<Byte>)
    requires Uninterrupted(log, i, |log|, run)
    ensures Runs(log).1 == Some(run)
    decreases |log|
  {
    var init, x := log[..|log| - 1], log[|log| - 1];
    if i < |log| - 1 {
      var s := log[i + 1..|log|];
      assert |s| == |log| - 1 - i && s[..|s| - 1] == log[i + 1..|log| - 1] == init[i + 1..|log| - 1];
      CurrentRun(init, i, BytesOf(init[i + 1..|log| - 1]));
    } else {
      assert log[i + 1..|log|] == [];
    }
  }

  lemma {:induction false} CurrentRunStart(log: seq<Entry>) returns (i: nat)
    requires Runs(log).1.Some?
    ensures Uninterrupted(log, i, |log|, Runs(log).1.value)
    decreases |log|
  {
    var init, x := log[..|log| - 1], log[|log| - 1];
    assert log == init + [x];
    if x == Idle {
      i := |log| - 1;
      assert log[i + 1..] == [];
    } else {
      i := CurrentRunStart(init);
      UninterruptedGrows(init, i, Runs(init).1.value, x);
    }
  }

  lemma {:induction false} RunStart(log: seq<Entry>, run: seq<Byte>) returns (i: nat, j: nat)
    requires run in Runs(log).0
    ensures IsRun(log, i, j, run)
    decreases |log|
  {
    hide Uninterrupted;
    var n := |log| - 1;
    if run in Runs(log[..n]).0 {
      i, j := RunStart(log[..n], run);
    } else {
      i := CurrentRunStart(log[..n]);
      j := n;
    }
    UninterruptedInit(log, i, j, run);
  }

  lemma {:induction false} RunListed(log: seq<Entry>, i: nat, j: nat, run: seq<Byte>)
    requires IsRun(log, i, j, run)
    ensures run in Runs(log).0
    decreases |log|
  {
    hide Uninterrupted;
    var n := |log| - 1;
    UninterruptedInit(log, i, j, run);
    if j == n {
      CurrentRun(log[..n], i, run);
    } else {
      RunListed(log[..n], i, j, run);
    }
  }

  /** `Runs` lists exactly the maximal runs of valid bytes between idle bytes. */
  lemma RunsAreMaximal(log: seq<Entry>, run: seq<Byte>)
    ensures run in Runs(log).0 <==> exists i: nat, j: nat :: IsRun(log, i, j, run)
  {
    hide Runs, IsRun;
    if run in Runs(log).0 {
      var i, j := RunStart(log, run);
    }
    if i: nat, j: nat :| IsRun(log, i, j, run) {
      RunListed(log, i, j, run);
    }
  }

  // ---------- One clock ----------

  /** The beats of bytes that are not the last of their frame. */
  predicate Sent(open: seq<Beat>, bytes: seq<Byte>) {
    |open| == |bytes| && forall i | 0 <= i < |open| :: open[i] == Beat(bytes[i].data, false, bytes[i].error)
  }

  /** A pending byte is the latest of the run under way, and the others have been sent unless an
      error has been noted. */
  predicate Sending(f: Frame, cur: seq<Byte>, open: seq<Beat>) {
    if f.pending then
      cur != [] && cur[|cur| - 1] == f.data && (!f.frameError ==> Sent(open, cur[..|cur| - 1]))
    else cur == []
  }

  /** How the frame registers, the wire's pending rise, the run under way and the open output
      frame hang together. */
  predicate InStep(f: Frame, wire: Rise, cur: Option<seq<Byte>>, open: seq<Beat>) {
    && (f.frameError ==> f.pending || f.closing)
    && (open != [] ==> f.pending || f.closing)
    && (!f.acquired && !f.closing ==> !f.pending)
    && (!f.closing && f.rise.seen ==> f.rise == wire)
    && (f.acquired && !f.closing ==> f.rise == wire && cur.Some? && Sending(f, cur.value, open))
  }

  function FramesAfter(f: (seq<seq<Beat>>, seq<Beat>), load: seq<Beat>): (seq<seq<Beat>>, seq<Beat>) {
    if load == [] then f else FramesStep(f, load[0])
  }

  lemma LoadsWhenAvailable(f: Frame, e: Edges, bad: bool, available: bool)
    ensures var load := FrameTick(f, e, bad, available).1; |load| <= 1 && (load != [] ==> available)
  {}

  lemma SameDecode(e: Edges, r: Rise, wire: Rise)
    requires r.seen ==> r == wire
    ensures WordDecode(e, r).1 != [] ==> WordDecode(e, r) == WordDecode(e, wire)
    ensures WordDecode(e, r).0.seen ==> WordDecode(e, r).0 == WordDecode(e, wire).0
  {}

  /** What a byte event does to an acquired receiver, to the runs and to the frames. */
  lemma ByteKeeps(f: Frame, wire: Rise, events: seq<Event>, available: bool,
                  r: (seq<seq<Byte>>, Option<seq<Byte>>), g: (seq<seq<Beat>>, seq<Beat>))
    requires |events| <= 1 && f.acquired && !f.closing && f.rise == wire
    requires f.frameError ==> f.pending
    requires g.1 != [] ==> f.pending
    requires r.1.Some? && Sending(f, r.1.value, g.1)
    ensures var t := ByteTick(f, events, available); var r' := RunsStep(r, EntryOf(events)); var g' := FramesAfter(g, t.1);
      && InStep(t.0, wire, r'.1, g'.1)
      && ((r'.0 == r.0 && g'.0 == g.0)
          || (r'.0 == r.0 + [r.1.value] && g'.0 == g.0)
          || (r'.0 == r.0 + [r.1.value] && |g'.0| == |g.0| + 1 && g'.0[..|g.0|] == g.0
              && (IsClean(g'.0[|g.0|]) ==> Payload(g'.0[|g.0|]) == r.1.value)))
  {
    var t := ByteTick(f, events, available);
    if events != [] && f.pending {
      var cur := r.1.value;
      assert cur[..|cur| - 1] + [f.data] == cur;
      if events[0].valid {
        var b := Byte(events[0].data, events[0].error);
        assert (cur + [b])[..|cur|] == cur;
      } else if available && !f.data.error && !f.frameError {
        assert Payload(g.1 + [t.1[0]]) == cur;
      }
    }
  }

  /** What one clock may add: a run, and after it perhaps a frame that is that run or not clean;
      or a frame that is not clean. */
  predicate Extends(r: (seq<seq<Byte>>, Option<seq<Byte>>), g: (seq<seq<Beat>>, seq<Beat>),
                    r': (seq<seq<Byte>>, Option<seq<Byte>>), g': (seq<seq<Beat>>, seq<Beat>)) {
    && (r'.0 == r.0 || (r.1.Some? && r'.0 == r.0 + [r.1.value]))
    && (g'.0 == g.0 || (|g'.0| == |g.0| + 1 && g'.0[..|g.0|] == g.0))
    && (|g'.0| == |g.0| + 1 && IsClean(g'.0[|g.0|]) ==>
          r.1.Some? && r'.0 == r.0 + [r.1.value] && Payload(g'.0[|g.0|]) == r.1.value)
  }

  lemma ClockKeeps(f: Frame, wire: Rise, e: Edges, bad: bool, available: bool,
                   r: (seq<seq<Byte>>, Option<seq<Byte>>), g: (seq<seq<Beat>>, seq<Beat>))
    requires InStep(f, wire, r.1, g.1)
    ensures var t := FrameTick(f, e, bad, available); var o := Observe(wire, e, bad);
            var r' := RunsStep(r, o.1); var g' := FramesAfter(g, t.1);
      InStep(t.0, o.0, r'.1, g'.1) && Extends(r, g, r', g')
  {
    if !f.closing { SameDecode(e, f.rise, wire); }
    if f.acquired && !f.closing && !bad {
      var d := WordDecode(e, f.rise);
      ByteKeeps(f.(rise := d.0), d.0, d.1, available, r, g);
    }
  }

  // ---------- While fault is clear ----------

  /** Nothing lost so far: the receiver follows the wire exactly. */
  predicate InSync(f: Frame, wire: Rise, cur: Option<seq<Byte>>, open: seq<Beat>) {
    && !f.closing && !f.frameError && f.rise == wire
    && (f.acquired <==> cur.Some?)
    && (if cur.Some? then Sending(f, cur.value, open) else !f.pending)
    && (open != [] ==> f.pending)
  }

  lemma ClockInSync(f: Frame, wire: Rise, e: Edges, bad: bool, available: bool,
                    r: (seq<seq<Byte>>, Option<seq<Byte>>), g: (seq<seq<Beat>>, seq<Beat>))
    requires InSync(f, wire, r.1, g.1) && Payloads(g.0) == r.0
    requires !FrameTick(f, e, bad, available).2
    ensures var t := FrameTick(f, e, bad, available); var o := Observe(wire, e, bad);
            var r' := RunsStep(r, o.1); var g' := FramesAfter(g, t.1);
      InSync(t.0, o.0, r'.1, g'.1) && Payloads(g'.0) == r'.0
  {
    if f.acquired && !bad {
      var d := WordDecode(e, f.rise);
      var t := ByteTick(f.(rise := d.0), d.1, available);
      if d.1 != [] && f.pending {
        var cur := r.1.value;
        assert cur[..|cur| - 1] + [f.data] == cur;
        if d.1[0].valid {
          assert (cur + [Byte(d.1[0].data, d.1[0].error)])[..|cur|] == cur;
        } else {
          assert Payload(g.1 + [t.1[0]]) == cur;
          assert Payloads(g.0 + [g.1 + [t.1[0]]]) == r.0 + [cur];
        }
      }
    }
  }

  // ---------- Whole runs ----------

  lemma AcceptsOneMore(adv: seq<nat>, inputs: seq<Input>)
    requires ValidAdvance(adv) && ValidInputs(inputs) && inputs != []
    ensures var n := |inputs| - 1; var out := Receive(adv, inputs[..n]).out;
      Accepted(adv, inputs)
      == Accepted(adv, inputs[..n]) + (if inputs[n].ready then Offer(out) else [])
  {}

  lemma OfferMoves(accepted: seq<Beat>, out: Output, load: seq<Beat>, ready: bool)
    requires |load| <= 1 && (load != [] ==> Available(out, ready))
    ensures (accepted + (if ready then Offer(out) else [])) + Offer(NextOutput(out, load, ready))
            == (accepted + Offer(out)) + load
  {}

  /** The beat loaded by the last clock is what it adds to the delivered beats. */
  lemma DeliversOneMore(adv: seq<nat>, inputs: seq<Input>, load: seq<Beat>)
    requires ValidAdvance(adv) && ValidInputs(inputs) && inputs != []
    requires var n := |inputs| - 1; var r := Receive(adv, inputs[..n]);
      && |load| <= 1 && (load != [] ==> Available(r.out, inputs[n].ready))
      && Receive(adv, inputs).out == NextOutput(r.out, load, inputs[n].ready)
    ensures Delivered(adv, inputs) == Delivered(adv, inputs[..|inputs| - 1]) + load
  {
    hide Receive, Accepted, Offer, NextOutput, Available;
    var n := |inputs| - 1;
    AcceptsOneMore(adv, inputs);
    OfferMoves(Accepted(adv, inputs[..n]), Receive(adv, inputs[..n]).out, load, inputs[n].ready);
  }

  lemma FramesOneMore(beats: seq<Beat>, load: seq<Beat>)
    requires |load| <= 1
    ensures Frames(beats + load) == FramesAfter(Frames(beats), load)
  {
    if load == [] { assert beats + load == beats; } else { assert (beats + load)[..|beats + load| - 1] == beats; }
  }

  lemma RunsOneMore(log: seq<Entry>, x: Entry)
    ensures Runs(log + [x]) == RunsStep(Runs(log), x)
  {
    assert (log + [x])[..|log + [x]| - 1] == log;
  }

  /** The word that the receiver decodes in the last clock. */
  function LastWordRead(adv: seq<nat>, inputs: seq<Input>): (w: seq<Sample>)
    requires ValidAdvance(adv) && ValidInputs(inputs) && inputs != []
    ensures |w| == 8
  {
    var n := |inputs| - 1;
    SamplesOf(Effective(adv, Receive(adv, inputs[..n]).history, inputs[n].raw), 8)
  }

  function WireOf(adv: seq<nat>, inputs: seq<Input>): (Wire, seq<Entry>)
    requires ValidAdvance(adv) && ValidInputs(inputs)
  {
    WireRun(WordsOf(EffectiveWords(adv, RawWords(inputs))))
  }

  lemma WireOneMore(adv: seq<nat>, inputs: seq<Input>)
    requires ValidAdvance(adv) && ValidInputs(inputs) && inputs != []
    ensures var soFar := WireOf(adv, inputs[..|inputs| - 1]); var step := WireStep(soFar.0, LastWordRead(adv, inputs));
      WireOf(adv, inputs) == (step.0, soFar.1 + [step.1])
  {
    hide WireStep, Effective, Receive;
    var n := |inputs| - 1;
    var words := RawWords(inputs);
    assert RawWords(inputs[..n]) == words[..n];
    EffectivePrefix(adv, words);
    var e := EffectiveWords(adv, words);
    assert WordsOf(e)[..n] == WordsOf(e[..n]);
    LastHistory(adv, inputs);
  }

  lemma LastHistory(adv: seq<nat>, inputs: seq<Input>)
    requires ValidAdvance(adv) && ValidInputs(inputs) && inputs != []
    ensures var n := |inputs| - 1; History(RawWords(inputs), n) == Receive(adv, inputs[..n]).history
  {}

  /** Everything that holds after a run. */
  ghost predicate Holds(adv: seq<nat>, inputs: seq<Input>)
    requires ValidAdvance(adv) && ValidInputs(inputs)
  {
    var r := Receive(adv, inputs); var w := WireOf(adv, inputs);
    var runs := Runs(w.1); var frames := Frames(Delivered(adv, inputs));
    && r.clocking == w.0.clocking
    && InStep(r.frame, w.0.rise, runs.1, frames.1)
    && Subsequence(Clean(frames.0), runs.0)
    && (!r.fault ==> InSync(r.frame, w.0.rise, runs.1, frames.1) && Payloads(frames.0) == runs.0)
  }

  lemma ExtendsKeepsOrder(r: (seq<seq<Byte>>, Option<seq<Byte>>), g: (seq<seq<Beat>>, seq<Beat>),
                          r': (seq<seq<Byte>>, Option<seq<Byte>>), g': (seq<seq<Beat>>, seq<Beat>))
    requires Subsequence(Clean(g.0), r.0) && Extends(r, g, r', g')
    ensures Subsequence(Clean(g'.0), r'.0)
  {
    var xs := Clean(g.0);
    if r'.0 != r.0 { assert r'.0[..|r'.0| - 1] == r.0; }
    if g'.0 != g.0 {
      if IsClean(g'.0[|g.0|]) {
        assert (xs + [r.1.value])[..|xs + [r.1.value]| - 1] == xs;
      } else {
        assert Clean(g'.0) == xs;
      }
    }
  }

  lemma ReceiveOneMore(adv: seq<nat>, inputs: seq<Input>)
    requires ValidAdvance(adv) && ValidInputs(inputs) && inputs != []
    ensures var n := |inputs| - 1; var r := Receive(adv, inputs[..n]); var w := LastWordRead(adv, inputs);
            var e := Scan(r.clocking.prev, w);
            var t := FrameTick(r.frame, e, Bad(r.clocking, e), Available(r.out, inputs[n].ready));
      Receive(adv, inputs) == Receiver(inputs[n].raw, NextClocking(r.clocking, w, e), t.0,
                                       NextOutput(r.out, t.1, inputs[n].ready), r.fault || t.2)
  {
    hide Scan, FrameTick, NextClocking, Available, NextOutput, Bad;
  }

  lemma HoldsOneMore(adv: seq<nat>, inputs: seq<Input>)
    requires ValidAdvance(adv) && ValidInputs(inputs) && inputs != []
    requires Holds(adv, inputs[..|inputs| - 1])
    ensures Holds(adv, inputs)
  {
    hide Receive, Scan, FrameTick, NextClocking, NextOutput, Bad, WireOf, Delivered, Frames, Runs,
         InStep, InSync, Extends, Subsequence, Clean, Payloads, Observe, LastWordRead, RunsStep, FramesAfter, Available;
    var n := |inputs| - 1;
    var init := inputs[..n];
    var r := Receive(adv, init);
    var w := WireOf(adv, init);
    var e := Scan(r.clocking.prev, LastWordRead(adv, inputs));
    var bad, available := Bad(r.clocking, e), Available(r.out, inputs[n].ready);
    var t := FrameTick(r.frame, e, bad, available);
    var runs, frames := Runs(w.1), Frames(Delivered(adv, init));
    ReceiveOneMore(adv, inputs);
    WireOneMore(adv, inputs);
    LoadsWhenAvailable(r.frame, e, bad, available);
    DeliversOneMore(adv, inputs, t.1);
    FramesOneMore(Delivered(adv, init), t.1);
    RunsOneMore(w.1, Observe(w.0.rise, e, bad).1);
    ClockKeeps(r.frame, w.0.rise, e, bad, available, runs, frames);
    ExtendsKeepsOrder(runs, frames, RunsStep(runs, Observe(w.0.rise, e, bad).1), FramesAfter(frames, t.1));
    if !(r.fault || t.2) { ClockInSync(r.frame, w.0.rise, e, bad, available, runs, frames); }
  }

  lemma {:induction false} AlwaysHolds(adv: seq<nat>, inputs: seq<Input>)
    requires ValidAdvance(adv) && ValidInputs(inputs)
    ensures Holds(adv, inputs)
    decreases |inputs|
  {
    if inputs != [] {
      AlwaysHolds(adv, inputs[..|inputs| - 1]);
      HoldsOneMore(adv, inputs);
    } else {
      HoldsAtReset(adv);
    }
  }

  lemma HoldsAtReset(adv: seq<nat>)
    requires ValidAdvance(adv)
    ensures Holds(adv, [])
  {
    assert Accepted(adv, []) == [] && WordsOf(EffectiveWords(adv, RawWords([]))) == [];
  }

  // ---------- The theorems ----------

  /** Clean frames are whole: whatever the back-pressure, the clock glitches and the timeouts,
      the clean frames among those delivered are, in order, maximal runs of the wire's record. */
  lemma CleanFramesAreRuns(adv: seq<nat>, inputs: seq<Input>)
    requires ValidAdvance(adv) && ValidInputs(inputs)
    ensures Subsequence(Clean(Frames(Delivered(adv, inputs)).0), Runs(Record(adv, inputs)).0)
  {
    AlwaysHolds(adv, inputs);
  }

  /** An open output frame always has a byte pending or an errored end owed. */
  lemma OpenFrameIsOwed(adv: seq<nat>, inputs: seq<Input>)
    requires ValidAdvance(adv) && ValidInputs(inputs)
    ensures var f := Receive(adv, inputs).frame;
      && (Frames(Delivered(adv, inputs)).1 != [] ==> f.pending || f.closing)
      && (f.frameError ==> f.pending || f.closing)
  {
    AlwaysHolds(adv, inputs);
  }

  /** As long as `fault` is clear nothing has been lost: the frames are exactly the runs, byte
      for byte with their error marks, and the open frame lacks only the latest byte. */
  lemma NothingLostWithoutFault(adv: seq<nat>, inputs: seq<Input>)
    requires ValidAdvance(adv) && ValidInputs(inputs) && !Receive(adv, inputs).fault
    ensures Payloads(Frames(Delivered(adv, inputs)).0) == Runs(Record(adv, inputs)).0
    ensures var cur := Runs(Record(adv, inputs)).1;
      cur.Some? && cur.value != [] ==> Payload(Frames(Delivered(adv, inputs)).1) == cur.value[..|cur.value| - 1]
  {
    hide Receive, Delivered, Frames, Runs, WireRun, InStep, Subsequence, Payloads;
    AlwaysHolds(adv, inputs);
    var cur := Runs(Record(adv, inputs)).1;
    SyncedPayload(Receive(adv, inputs).frame, WireOf(adv, inputs).0.rise, cur, Frames(Delivered(adv, inputs)).1);
  }

  lemma SyncedPayload(f: Frame, wire: Rise, cur: Option<seq<Byte>>, open: seq<Beat>)
    requires InSync(f, wire, cur, open)
    ensures cur.Some? && cur.value != [] ==> Payload(open) == cur.value[..|cur.value| - 1]
  {}

  lemma FaultNeedsCause(f: Frame, e: Edges, bad: bool, available: bool)
    ensures !bad && available ==> !FrameTick(f, e, bad, available).2
  {}

  /** When the far side is always ready and the record has no break, `fault` stays clear. */
  lemma {:induction false} NoFaultWhenReady(adv: seq<nat>, inputs: seq<Input>)
    requires ValidAdvance(adv) && ValidInputs(inputs)
    requires forall t | 0 <= t < |inputs| :: inputs[t].ready
    requires Break !in Record(adv, inputs)
    ensures !Receive(adv, inputs).fault
    decreases |inputs|
  {
    hide Receive, Scan, FrameTick, NextClocking, NextOutput, Bad, WireRun, Delivered, Frames, Runs,
         InStep, InSync, Subsequence, Payloads, LastWordRead, Clean, EffectiveWords, WordsOf, WordDecode;
    if inputs == [] {
      StartsWithoutFault(adv);
    } else {
      var n := |inputs| - 1;
      var init := inputs[..n];
      var r := Receive(adv, init);
      var e := Scan(r.clocking.prev, LastWordRead(adv, inputs));
      WireOneMore(adv, inputs);
      ReceiveOneMore(adv, inputs);
      assert Record(adv, inputs) == WireOf(adv, inputs).1 && Record(adv, init) == WireOf(adv, init).1;
      var x := WireStep(WireOf(adv, init).0, LastWordRead(adv, inputs)).1;
      assert forall y | y in Record(adv, init) :: y in Record(adv, inputs);
      assert x in Record(adv, inputs);
      NoFaultWhenReady(adv, init);
      AlwaysHolds(adv, init);
      FaultNeedsCause(r.frame, e, Bad(r.clocking, e), Available(r.out, inputs[n].ready));
    }
  }

  lemma StartsWithoutFault(adv: seq<nat>)
    requires ValidAdvance(adv)
    ensures !Receive(adv, []).fault
  {}

  // ---------- Timeouts ----------

  /** How many words at the end of a run had no edge. */
  function QuietWords(words: seq<seq<Sample>>): nat
    requires WordSized(words)
    decreases |words|
  {
    if words == [] then 0
    else
      var n := |words| - 1;
      var e := Scan(Previous(words, n), words[n]);
      if e.rises > 0 || e.falls > 0 then 0 else QuietWords(words[..n]) + 1
  }

  /** The idle counter is the number of words without an edge, up to its limit: a timeout is exactly
      that many words in a row. */
  lemma {:induction false} IdleCountsQuietWords(words: seq<seq<Sample>>)
    requires WordSized(words)
    ensures var c := WireRun(words).0.clocking;
      && c.prev == Previous(words, |words|)
      && c.idle == (if QuietWords(words) < IDLE_LIMIT then QuietWords(words) else IDLE_LIMIT)
    decreases |words|
  {
    hide Scan, Observe;
    if words != [] {
      var n := |words| - 1;
      IdleCountsQuietWords(words[..n]);
      assert Previous(words[..n], n) == Previous(words, n);
    }
  }

  /** A word breaks the record exactly when it has two edges of one kind or follows a timeout. */
  lemma BreaksExactlyOnGlitchOrTimeout(words: seq<seq<Sample>>)
    requires WordSized(words) && words != []
    ensures var n := |words| - 1;
      |WireRun(words).1| == |words| &&
      (WireRun(words).1[n] == Break <==>
        Malformed(Scan(Previous(words, n), words[n])) || QuietWords(words[..n]) >= IDLE_LIMIT)
  {
    hide Scan, Malformed, WordDecode;
    var n := |words| - 1;
    IdleCountsQuietWords(words[..n]);
    RecordLength(words[..n]);
    assert Previous(words[..n], n) == Previous(words, n);
  }

  lemma {:induction false} RecordLength(words: seq<seq<Sample>>)
    requires WordSized(words)
    ensures |WireRun(words).1| == |words|
    decreases |words|
  {
    hide WireStep;
    if words != [] { RecordLength(words[..|words| - 1]); }
  }
}
