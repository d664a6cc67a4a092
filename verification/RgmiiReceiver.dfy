/** The gigabit receiver as the registers it is built from: one call of `Clock` is one clock
    edge, proved equal to the transition function. */
module RgmiiReceiver {
  import opened RgmiiSampling
  import opened RgmiiFrames

  lemma CountSetBit(x: bv8, i: nat)
    requires i < 8 && x >> i == 0
    ensures CountBits(x | (1 << i)) == CountBits(x) + 1
    ensures (x | (1 << i)) >> (i + 1) == 0
    ensures x >> (i + 1) == 0
  {
    if i == 0 {} else if i == 1 {} else if i == 2 {} else if i == 3 {}
    else if i == 4 {} else if i == 5 {} else if i == 6 {} else {}
  }

  lemma NothingScanned(prev: Sample, w: seq<Sample>)
    ensures CountBits(0) == 0 && Scan(prev, w[..0]) == Edges(0, 0, 0, 0, LOW_SAMPLE, LOW_SAMPLE)
  {}

  lemma ScanOneMore(prev: Sample, w: seq<Sample>, i: nat)
    requires i < |w|
    ensures var e := Scan(prev, w[..i]); var before := Before(prev, w, i);
      Scan(prev, w[..i + 1]) ==
        if Rises(before, w[i]) then e.(rises := e.rises + 1, riseIndex := i, atRise := before)
        else if Falls(before, w[i]) then e.(falls := e.falls + 1, fallIndex := i, atFall := before)
        else e
  {
    assert w[..i + 1][..i] == w[..i];
  }

  /** The combinational edge scan: later positions override earlier ones. */
  method ScanEdges(prev: Sample, w: seq<Sample>) returns (rises: bv8, falls: bv8, e: Edges)
    requires |w| == 8
    ensures e == Scan(prev, w)
    ensures CountBits(rises) == e.rises && CountBits(falls) == e.falls
  {
    hide CountBits, Scan;
    rises, falls := 0, 0;
    NothingScanned(prev, w);
    e := Edges(0, 0, 0, 0, LOW_SAMPLE, LOW_SAMPLE);
    var before := prev;
    for i := 0 to 8
      invariant rises >> i == 0 && falls >> i == 0
      invariant before == Before(prev, w, i)
      invariant e == Scan(prev, w[..i])
      invariant CountBits(rises) == e.rises && CountBits(falls) == e.falls
    {
      CountSetBit(rises, i);
      CountSetBit(falls, i);
      ScanOneMore(prev, w, i);
      if Rises(before, w[i]) {
        rises := rises | (1 << i);
        e := e.(rises := e.rises + 1, riseIndex := i, atRise := before);
      }
      if Falls(before, w[i]) {
        falls := falls | (1 << i);
        e := e.(falls := e.falls + 1, fallIndex := i, atFall := before);
      }
      before := w[i];
    }
    assert w[..8] == w;
  }

  class Registers {
    const advance: seq<nat>
    var history: Lanes
    var previous: Sample
    var idleCycles: nat
    var frame: Frame
    var out: Output
    var fault: bool

    ghost predicate Valid()
      reads this
    {
      ValidAdvance(advance) && ValidLanes(history)
    }

    function Snapshot(): Receiver
      reads this
    {
      Receiver(history, Clocking(previous, idleCycles), frame, out, fault)
    }

    constructor (advance: seq<nat>)
      requires ValidAdvance(advance)
      ensures Valid() && this.advance == advance && Snapshot() == RESET
    {
      this.advance := advance;
      history, previous, idleCycles := SILENT, LOW_SAMPLE, 0;
      frame := FIRST_FRAME;
      out, fault := Output(false, Beat(0, false, false)), false;
    }

    method Clock(raw: Lanes, ready: bool)
      requires Valid() && ValidLanes(raw)
      modifies this
      ensures Valid()
      ensures Snapshot() == Clocked(advance, old(Snapshot()), raw, ready)
    {
      hide Effective, SamplesOf, Scan, CountBits, FrameTick;
      var w := SamplesOf(Effective(advance, history, raw), 8);
      var rises, falls, e := ScanEdges(previous, w);
      ClearingLowestBit(rises);
      ClearingLowestBit(falls);
      var malformed := (rises & (rises - 1)) != 0 || (falls & (falls - 1)) != 0;
      var timeout := idleCycles == IDLE_LIMIT;
      assert malformed == Malformed(e);

      history := raw;
      previous := w[7];
      if e.rises > 0 || e.falls > 0 { idleCycles := 0; } else if !timeout { idleCycles := idleCycles + 1; }

      UpdateFrame(e, malformed, malformed || timeout, ready);
    }

    method UpdateFrame(e: Edges, malformed: bool, bad: bool, ready: bool)
      requires malformed == Malformed(e)
      modifies this`frame, this`out, this`fault
      ensures var t := FrameTick(old(frame), e, bad, Available(old(out), ready));
        frame == t.0 && out == NextOutput(old(out), t.1, ready) && fault == (old(fault) || t.2)
    {
      hide WordDecode, ByteTick, Malformed;
      var available := !out.valid || ready;
      if ready { out := out.(valid := false); }
      if frame.closing {
        if available {
          out := Output(true, Beat(frame.data.data, true, true));
          frame := frame.(closing := false, pending := false, rise := frame.rise.(seen := false),
                          acquired := false, frameError := false);
        }
      } else if !frame.acquired {
        if bad {
          frame := frame.(rise := frame.rise.(seen := false));
        } else {
          var rise, event, b := Edge(e, frame.rise);
          frame := frame.(rise := rise);
          if event && !b.valid { frame := frame.(acquired := true); }
        }
      } else if bad {
        if frame.pending {
          frame := frame.(closing := true);
          fault := true;
        }
        frame := frame.(rise := frame.rise.(seen := false), acquired := false);
        if malformed { fault := true; }
      } else {
        NextByte(e, available);
      }
    }

    /** An acquired receiver in a clock with a well-formed word. */
    method NextByte(e: Edges, available: bool)
      requires !frame.closing
      modifies this`frame, this`out, this`fault
      ensures var d := WordDecode(e, old(frame).rise); var t := ByteTick(old(frame).(rise := d.0), d.1, available);
        frame == t.0 && out == (if t.1 != [] then Output(true, t.1[0]) else old(out)) && fault == (old(fault) || t.2)
    {
      hide WordDecode;
      var rise, event, b := Edge(e, frame.rise);
      frame := frame.(rise := rise);
      if event {
        if frame.pending {
          if available {
            out := Output(true, Beat(frame.data.data, !b.valid, frame.data.error || frame.frameError));
          } else {
            fault := true;
            frame := frame.(frameError := true);
            if !b.valid { frame := frame.(closing := true); }
          }
        }
        frame := frame.(pending := b.valid);
        if b.valid {
          frame := frame.(data := Byte(b.data, b.error));
        } else if available {
          frame := frame.(frameError := false);
        }
      }
    }
  }

  /** Latches a rise, pairs a fall, and reports the byte event if there is one. */
  method Edge(e: Edges, r: Rise) returns (rise: Rise, event: bool, b: Event)
    ensures WordDecode(e, r) == (rise, if event then [b] else [])
  {
    var same := e.rises > 0 && e.falls > 0 && e.riseIndex < e.fallIndex;
    rise := r;
    event := e.falls > 0 && (same || r.seen);
    b := ByteEvent(if same then e.atRise.ctl else r.dv, if same then e.atRise.nibble else r.low,
                   e.atFall.nibble, e.atFall.ctl);
    if e.rises > 0 { rise := Rise(true, e.atRise.nibble, e.atRise.ctl); }
    if e.falls > 0 { rise := rise.(seen := e.rises > 0 && !same); }
  }
}
