/** The store-and-forward Ethernet queue: a ring of frame slots, a descriptor FIFO and a reader
    that keeps a slot until its last beat has left. */
module FrameQueue {
  import opened Options

  const WORDS_PER_SLOT := 512
  const COUNTER := 0x1_0000_0000

  datatype Geometry = Geometry(slots: nat, mtu: nat)

  predicate ValidGeometry(g: Geometry) { g.slots >= 2 && 60 <= g.mtu <= 2044 }

  datatype Desc = Desc(slot: nat, length: nat)

  datatype Phase = Idle | Read | Release

  /** The queue's registers, memory and descriptor FIFO. */
  datatype Queue = Queue(
    memory: seq<nat>, writeSlot: nat, desc: seq<Desc>,
    phase: Phase, offset: nat, fetched: nat, counts: Counts, errorSeen: bool)

  datatype Counts = Counts(received: nat, forwarded: nat, dropped: nat, errors: nat)

  /** What the packet writer does in one clock: write the word at some index of its frame, finish
      a frame of so many bytes, drop a frame, or none of these. */
  datatype Writer = Nothing | Write(index: nat, data: nat) | Finish(length: nat) | Drop(error: bool)

  /** What the packet reader shows in one clock. */
  datatype Reader = Reader(idle: bool, ready: bool, done: bool)

  /** An input beat that is accepted: its word, whether any valid lane shows an error, and whether it
      is the last of its frame. */
  datatype SinkBeat = SinkBeat(data: nat, error: bool, last: bool)

  datatype Input = Input(writer: Writer, reader: Reader, sink: Option<SinkBeat>)

  function Reset(g: Geometry): Queue {
    Queue(seq(g.slots * WORDS_PER_SLOT, _ => 0), 0, [], Idle, 0, 0, Counts(0, 0, 0, 0), false)
  }

  function WordsOf(length: nat): nat { (length + 3) / 4 }

  function Address(slot: nat, index: nat): nat { slot * WORDS_PER_SLOT + index % WORDS_PER_SLOT }

  /** The word at an address; the address counter cannot leave the memory. */
  function Word(memory: seq<nat>, address: nat): nat { if address < |memory| then memory[address] else 0 }

  function NextSlot(g: Geometry, slot: nat): nat { if slot + 1 == g.slots then 0 else slot + 1 }

  function Bump(n: nat): nat { (n + 1) % COUNTER }

  predicate Writable(g: Geometry, q: Queue) { |q.desc| < g.slots }

  /** Whether the beat on offer is the last of its frame. */
  predicate LastBeat(q: Queue) { q.desc != [] && q.offset >= q.desc[0].length }

  /** The writer's side of a clock. */
  function Store(g: Geometry, q: Queue, w: Writer): Queue {
    match w
    case Nothing => q
    case Write(index, data) =>
      var a := Address(q.writeSlot, index);
      if a < |q.memory| then q.(memory := q.memory[a := data]) else q
    case Finish(length) =>
      if Writable(g, q) then
        q.(desc := q.desc + [Desc(q.writeSlot, length)], writeSlot := NextSlot(g, q.writeSlot),
           counts := q.counts.(received := Bump(q.counts.received)))
      else q
    case Drop(error) =>
      q.(counts := q.counts.(dropped := Bump(q.counts.dropped),
                             errors := if error then Bump(q.counts.errors) else q.counts.errors))
  }

  /** The reader's side, on the registers as they were: the phase, the offset, the word fetched,
      and whether the head descriptor is released. */
  function Advance(q: Queue, r: Reader): (Phase, nat, nat, bool) {
    match q.phase
    case Idle =>
      if q.desc != [] && r.idle then (Read, 4, Word(q.memory, Address(q.desc[0].slot, q.offset / 4)), false)
      else (Idle, q.offset, q.fetched, false)
    case Read =>
      if r.done then (Release, q.offset, q.fetched, false)
      else if r.ready && q.desc != [] && !LastBeat(q) then
        (Read, q.offset + 4, Word(q.memory, Address(q.desc[0].slot, q.offset / 4)), false)
      else (Read, q.offset, q.fetched, false)
    case Release => (Idle, 0, q.fetched, q.desc != [])
  }

  /** The error bit is kept from beat to beat and cleared by the last. */
  function NextErrorSeen(seen: bool, b: Option<SinkBeat>): bool {
    if b.None? then seen else !b.value.last && (seen || b.value.error)
  }

  function Clock(g: Geometry, q: Queue, i: Input): Queue {
    var a := Advance(q, i.reader);
    var s := Store(g, q, i.writer);
    s.(phase := a.0, offset := a.1, fetched := a.2,
       desc := if a.3 then s.desc[1..] else s.desc,
       counts := if a.3 then s.counts.(forwarded := Bump(s.counts.forwarded)) else s.counts,
       errorSeen := NextErrorSeen(q.errorSeen, i.sink))
  }

  // ---------- A record of the frames ----------

  /** The words written of the frame under way, the frames accepted, the frames that have left
      and the words of the frame that is leaving. */
  datatype Record = Record(
    partial: Option<seq<nat>>, accepted: seq<seq<nat>>, sent: seq<seq<nat>>, sending: seq<nat>)

  const NO_FRAMES := Record(None, [], [], [])

  function Written(r: Record): seq<nat> { if r.partial.Some? then r.partial.value else [] }

  function RecordWriter(r: Record, w: Writer): Record {
    match w
    case Nothing => r
    case Write(_, data) => r.(partial := Some(Written(r) + [data]))
    case Finish(_) => r.(partial := None, accepted := r.accepted + [Written(r)])
    case Drop(_) => r.(partial := None)
  }

  /** A beat leaves when it is offered and the reader is ready. */
  function RecordReader(r: Record, q: Queue, i: Reader): Record {
    if q.phase != Read || !i.ready then r
    else if LastBeat(q) then r.(sent := r.sent + [r.sending + [q.fetched]], sending := [])
    else r.(sending := r.sending + [q.fetched])
  }

  function Observe(r: Record, q: Queue, i: Input): Record {
    RecordReader(RecordWriter(r, i.writer), q, i.reader)
  }

  /** The beats taken of the frame that is arriving, the frames that have arrived, whether the last
      beat of the latest one showed the writer an error, and which frames the writer has finished. */
  datatype Arrivals = Arrivals(current: seq<SinkBeat>, frames: seq<seq<SinkBeat>>, shown: bool, taken: seq<nat>)

  const NO_ARRIVALS := Arrivals([], [], false, [])

  function Latest(a: Arrivals): nat { if a.frames == [] then 0 else |a.frames| - 1 }

  /** With its last beat the writer is shown that beat's error or any earlier one of the frame. */
  function TakeBeat(a: Arrivals, errorSeen: bool, b: SinkBeat): Arrivals {
    if b.last then a.(current := [], frames := a.frames + [a.current + [b]], shown := b.error || errorSeen)
    else a.(current := a.current + [b])
  }

  function Arrive(a: Arrivals, q: Queue, i: Input): Arrivals {
    var t := if i.writer.Finish? then a.(taken := a.taken + [Latest(a)]) else a;
    if i.sink.None? then t else TakeBeat(t, q.errorSeen, i.sink.value)
  }

  function Words(frame: seq<SinkBeat>): (w: seq<nat>)
    ensures |w| == |frame| && forall k | 0 <= k < |frame| :: w[k] == frame[k].data
  {
    seq(|frame|, k requires 0 <= k < |frame| => frame[k].data)
  }

  // ---------- What the packet writer and reader promise ----------

  /** The writer starts a frame only when a descriptor is free, writes words in order, and finishes
      only a frame within the size limit whose words it has written. */
  predicate WriterKeepsPromise(g: Geometry, q: Queue, r: Record, w: Writer) {
    match w
    case Write(index, _) => index == |Written(r)| && (r.partial.None? ==> Writable(g, q))
    case Finish(length) => r.partial.Some? && 1 <= length <= g.mtu && |Written(r)| == WordsOf(length)
    case _ => true
  }

  /** The writer finishes only the frame that has arrived last, once, when that frame's last beat
      showed no error and its words are the words written. */
  predicate FinishesArrived(a: Arrivals, r: Record, w: Writer) {
    w.Finish? ==>
      && a.frames != [] && !a.shown && (a.taken == [] || a.taken[|a.taken| - 1] < Latest(a))
      && Written(r) == Words(a.frames[Latest(a)])
  }

  /** The reader is done exactly when the last beat of its frame is accepted. */
  predicate ReaderKeepsPromise(q: Queue, r: Reader) {
    r.done <==> q.phase == Read && r.ready && LastBeat(q)
  }

  predicate Allowed(g: Geometry, q: Queue, r: Record, i: Input) {
    WriterKeepsPromise(g, q, r, i.writer) && ReaderKeepsPromise(q, i.reader)
  }

  // ---------- Runs ----------

  function Run(g: Geometry, inputs: seq<Input>): (Queue, Record)
    decreases |inputs|
  {
    if inputs == [] then (Reset(g), NO_FRAMES)
    else
      var soFar := Run(g, inputs[..|inputs| - 1]);
      var i := inputs[|inputs| - 1];
      (Clock(g, soFar.0, i), Observe(soFar.1, soFar.0, i))
  }

  function ArrivalsOf(g: Geometry, inputs: seq<Input>): Arrivals
    decreases |inputs|
  {
    if inputs == [] then NO_ARRIVALS
    else
      var init := inputs[..|inputs| - 1];
      Arrive(ArrivalsOf(g, init), Run(g, init).0, inputs[|inputs| - 1])
  }

  predicate AllowedRun(g: Geometry, inputs: seq<Input>)
    decreases |inputs|
  {
    inputs == []
    || (var init, i := inputs[..|inputs| - 1], inputs[|inputs| - 1];
        && AllowedRun(g, init)
        && Allowed(g, Run(g, init).0, Run(g, init).1, i)
        && FinishesArrived(ArrivalsOf(g, init), Run(g, init).1, i.writer))
  }
}
