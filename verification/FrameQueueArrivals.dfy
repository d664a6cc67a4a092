/** From the queue's input to its output: what leaves are the words of frames that arrived whole and
    without an error, in the order of their arrival. */
module FrameQueueArrivals {
  import opened Options
  import opened FrameQueue
  import opened FrameQueueTheorems

  predicate HasError(beats: seq<SinkBeat>) { exists k | 0 <= k < |beats| :: beats[k].error }

  /** Beats that are not the last of a frame. */
  predicate Unfinished(beats: seq<SinkBeat>) { forall k | 0 <= k < |beats| :: !beats[k].last }

  /** The beats of one whole frame: only the last one is marked so. */
  predicate Whole(frame: seq<SinkBeat>) {
    frame != [] && frame[|frame| - 1].last && Unfinished(frame[..|frame| - 1])
  }

  /** Every beat accepted so far. */
  function BeatsOf(inputs: seq<Input>): seq<SinkBeat>
    decreases |inputs|
  {
    if inputs == [] then []
    else
      var n := |inputs| - 1;
      BeatsOf(inputs[..n]) + (if inputs[n].sink.Some? then [inputs[n].sink.value] else [])
  }

  function Joined(frames: seq<seq<SinkBeat>>): seq<SinkBeat>
    decreases |frames|
  {
    if frames == [] then [] else Joined(frames[..|frames| - 1]) + frames[|frames| - 1]
  }

  predicate Increasing(s: seq<nat>) { forall i, j | 0 <= i < j < |s| :: s[i] < s[j] }

  // ---------- The sticky error ----------

  /** The error bit says exactly whether the frame under way has had an error, and what the writer
      is shown with a last beat whether any beat of its frame had one. */
  predicate ErrorsKnown(errorSeen: bool, a: Arrivals) {
    && Unfinished(a.current) && (errorSeen <==> HasError(a.current))
    && (forall k | 0 <= k < |a.frames| :: Whole(a.frames[k]))
    && (a.frames != [] ==> (a.shown <==> HasError(a.frames[Latest(a)])))
  }

  lemma ErrorOneMore(beats: seq<SinkBeat>, b: SinkBeat)
    ensures HasError(beats + [b]) <==> HasError(beats) || b.error
  {
    var all := beats + [b];
    if HasError(beats) {
      var k :| 0 <= k < |beats| && beats[k].error;
      assert all[k].error;
    }
    if b.error { assert all[|beats|].error; }
    assert forall k | 0 <= k < |beats| :: all[k] == beats[k];
  }

  lemma ArriveKnown(q: Queue, a: Arrivals, i: Input)
    requires ErrorsKnown(q.errorSeen, a)
    ensures ErrorsKnown(NextErrorSeen(q.errorSeen, i.sink), Arrive(a, q, i))
  {
    hide HasError, Whole, Unfinished;
    if i.sink.Some? {
      var b := i.sink.value;
      ErrorOneMore(a.current, b);
      NothingYet();
      if b.last { WholeAtLast(a.current, b); } else { UnfinishedOneMore(a.current, b); }
    }
  }

  lemma WholeAtLast(beats: seq<SinkBeat>, b: SinkBeat)
    requires Unfinished(beats) && b.last
    ensures Whole(beats + [b])
  {
    assert (beats + [b])[..|beats|] == beats;
  }

  lemma UnfinishedOneMore(beats: seq<SinkBeat>, b: SinkBeat)
    requires Unfinished(beats) && !b.last
    ensures Unfinished(beats + [b])
  {}

  lemma NothingYet()
    ensures !HasError([]) && Unfinished([])
  {}

  lemma {:induction false} ErrorSeenMeansErrorInFrame(g: Geometry, inputs: seq<Input>)
    ensures ErrorsKnown(Run(g, inputs).0.errorSeen, ArrivalsOf(g, inputs))
    decreases |inputs|
  {
    hide ErrorsKnown, Arrive, Store, Advance, NextErrorSeen;
    if inputs == [] {
      NothingKnown();
    } else {
      var init := inputs[..|inputs| - 1];
      ErrorSeenMeansErrorInFrame(g, init);
      ArriveKnown(Run(g, init).0, ArrivalsOf(g, init), inputs[|inputs| - 1]);
    }
  }

  lemma NothingKnown()
    ensures ErrorsKnown(false, NO_ARRIVALS)
  {}

  /** The frames that have arrived and the beats of the next one are all the beats, in order. */
  lemma {:induction false} FramesAreTheBeats(g: Geometry, inputs: seq<Input>)
    ensures var a := ArrivalsOf(g, inputs); Joined(a.frames) + a.current == BeatsOf(inputs)
    decreases |inputs|
  {
    hide Run;
    if inputs != [] {
      var n := |inputs| - 1;
      var a := ArrivalsOf(g, inputs[..n]);
      FramesAreTheBeats(g, inputs[..n]);
      if inputs[n].sink.Some? {
        var b := inputs[n].sink.value;
        assert Joined(a.frames) + (a.current + [b]) == BeatsOf(inputs);
        assert (a.frames + [a.current + [b]])[..|a.frames|] == a.frames;
      }
    }
  }

  // ---------- The frames accepted ----------

  /** The accepted frames are arrived ones without an error, in order. */
  predicate AcceptedArrived(a: Arrivals, r: Record) {
    && |a.taken| == |r.accepted| && Increasing(a.taken)
    && forall k | 0 <= k < |a.taken| ::
         a.taken[k] < |a.frames| && !HasError(a.frames[a.taken[k]]) && r.accepted[k] == Words(a.frames[a.taken[k]])
  }

  lemma ClockKeepsAccepted(q: Queue, a: Arrivals, r: Record, i: Input)
    requires AcceptedArrived(a, r) && ErrorsKnown(q.errorSeen, a) && FinishesArrived(a, r, i.writer)
    ensures AcceptedArrived(Arrive(a, q, i), Observe(r, q, i))
  {
    hide HasError, Words, Whole, Unfinished, Increasing;
    var t := Arrive(a, q, i);
    assert a.frames <= t.frames;
    if i.writer.Finish? {
      LaterTaken(a.taken, Latest(a));
      assert t.taken == a.taken + [Latest(a)] && Observe(r, q, i).accepted == r.accepted + [Written(r)];
    }
  }

  lemma LaterTaken(s: seq<nat>, n: nat)
    requires Increasing(s) && (s == [] || s[|s| - 1] < n)
    ensures Increasing(s + [n])
  {}

  lemma {:induction false} AcceptedFramesArrived(g: Geometry, inputs: seq<Input>)
    requires AllowedRun(g, inputs)
    ensures AcceptedArrived(ArrivalsOf(g, inputs), Run(g, inputs).1)
    decreases |inputs|
  {
    hide AcceptedArrived, ErrorsKnown, Arrive, Observe, Clock, FinishesArrived, Allowed;
    if inputs == [] {
      NothingAccepted();
    } else {
      var init := inputs[..|inputs| - 1];
      AcceptedFramesArrived(g, init);
      ErrorSeenMeansErrorInFrame(g, init);
      ClockKeepsAccepted(Run(g, init).0, ArrivalsOf(g, init), Run(g, init).1, inputs[|inputs| - 1]);
    }
  }

  lemma NothingAccepted()
    ensures AcceptedArrived(NO_ARRIVALS, NO_FRAMES)
  {}

  /** Every frame that leaves is, word for word, a whole arrived frame none of whose beats had an
      error, and frames leave in the order of their arrival, none twice. */
  lemma OnlyCleanFramesLeave(g: Geometry, inputs: seq<Input>)
    requires ValidGeometry(g) && AllowedRun(g, inputs)
    ensures var (r, a) := (Run(g, inputs).1, ArrivalsOf(g, inputs));
      && |r.sent| <= |a.taken| && Increasing(a.taken)
      && forall k | 0 <= k < |r.sent| ::
           && a.taken[k] < |a.frames| && r.sent[k] == Words(a.frames[a.taken[k]])
           && Whole(a.frames[a.taken[k]]) && !HasError(a.frames[a.taken[k]])
  {
    hide Run, AllowedRun, ArrivalsOf, HasError, Words, Whole;
    FramesLeaveInOrder(g, inputs);
    AcceptedFramesArrived(g, inputs);
    ErrorSeenMeansErrorInFrame(g, inputs);
  }
}
