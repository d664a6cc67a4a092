/** What the frame queue keeps: no queued frame is overwritten, frames leave whole and in order,
    and the counters account for the descriptors. */
module FrameQueueTheorems {
  import opened Options
  import opened FrameQueue

  // ---------- The ring of slots ----------

  /** The slot of the descriptor at position i: the occupied slots end just before `writeSlot`. */
  function SlotAt(g: Geometry, writeSlot: nat, level: nat, i: nat): int {
    var x := writeSlot - level + i;
    if x < 0 then x + g.slots else x
  }

  predicate Ring(g: Geometry, writeSlot: nat, desc: seq<Desc>) {
    && writeSlot < g.slots && |desc| <= g.slots
    && forall i | 0 <= i < |desc| :: desc[i].slot == SlotAt(g, writeSlot, |desc|, i) && 1 <= desc[i].length <= g.mtu
  }

  lemma SlotsDistinct(g: Geometry, writeSlot: nat, desc: seq<Desc>)
    requires Ring(g, writeSlot, desc)
    ensures forall i | 0 <= i < |desc| :: desc[i].slot < g.slots
    ensures forall i, j | 0 <= i < j < |desc| :: desc[i].slot != desc[j].slot
    ensures |desc| < g.slots ==> forall i | 0 <= i < |desc| :: desc[i].slot != writeSlot
  {}

  lemma RingGrows(g: Geometry, writeSlot: nat, desc: seq<Desc>, length: nat)
    requires Ring(g, writeSlot, desc) && |desc| < g.slots && 1 <= length <= g.mtu
    ensures Ring(g, NextSlot(g, writeSlot), desc + [Desc(writeSlot, length)])
  {}

  lemma RingShrinks(g: Geometry, writeSlot: nat, desc: seq<Desc>)
    requires Ring(g, writeSlot, desc) && desc != []
    ensures Ring(g, writeSlot, desc[1..])
  {}

  // ---------- Stored frames ----------

  /** A slot begins with these words. */
  predicate Stored(memory: seq<nat>, slot: nat, words: seq<nat>) {
    && (slot + 1) * WORDS_PER_SLOT <= |memory|
    && |words| <= WORDS_PER_SLOT
    && forall w | 0 <= w < |words| :: memory[slot * WORDS_PER_SLOT + w] == words[w]
  }

  lemma WriteElsewhere(memory: seq<nat>, slot: nat, words: seq<nat>, other: nat, index: nat, data: nat)
    requires Stored(memory, slot, words) && other != slot && Address(other, index) < |memory|
    ensures Stored(memory[Address(other, index) := data], slot, words)
  {}

  lemma WriteNext(memory: seq<nat>, slot: nat, words: seq<nat>, data: nat)
    requires Stored(memory, slot, words) && |words| < WORDS_PER_SLOT
    ensures Address(slot, |words|) < |memory|
    ensures Stored(memory[Address(slot, |words|) := data], slot, words + [data])
  {}

  /** The frames from position `first` on are the accepted ones still stored. */
  predicate Holds(q: Queue, frames: seq<seq<nat>>, first: nat) {
    && first <= |q.desc| && |frames| == |q.desc| - first
    && forall k | 0 <= k < |frames| ::
         |frames[k]| == WordsOf(q.desc[first + k].length) && Stored(q.memory, q.desc[first + k].slot, frames[k])
  }

  function Left(q: Queue): nat { if q.phase == Release then 1 else 0 }

  /** The frames accepted but not yet sent. */
  function Waiting(r: Record): seq<seq<nat>> { if |r.sent| <= |r.accepted| then r.accepted[|r.sent|..] else [] }

  predicate WritingOk(g: Geometry, q: Queue, r: Record) {
    r.partial.Some? ==>
      && Writable(g, q)
      && (|r.partial.value| <= WORDS_PER_SLOT ==> Stored(q.memory, q.writeSlot, r.partial.value))
  }

  predicate SendingOk(q: Queue, r: Record) {
    match q.phase
    case Idle => q.offset == 0 && r.sending == []
    case Release => q.desc != [] && r.sending == []
    case Read =>
      && q.desc != [] && Waiting(r) != []
      && q.offset == 4 * (|r.sending| + 1) && |r.sending| < |Waiting(r)[0]|
      && q.fetched == Waiting(r)[0][|r.sending|] && r.sending == Waiting(r)[0][..|r.sending|]
  }

  /** The part of the invariant about slots and frames. */
  predicate FramesKept(g: Geometry, q: Queue, r: Record) {
    && |q.memory| == g.slots * WORDS_PER_SLOT
    && Ring(g, q.writeSlot, q.desc)
    && r.sent <= r.accepted
    && Holds(q, Waiting(r), Left(q))
    && WritingOk(g, q, r)
    && SendingOk(q, r)
  }

  predicate Invariant(g: Geometry, q: Queue, r: Record) {
    && FramesKept(g, q, r)
    && q.counts.received == |r.accepted| % COUNTER
    && |r.accepted| >= |q.desc| && q.counts.forwarded == (|r.accepted| - |q.desc|) % COUNTER
  }

  lemma StartsRight(g: Geometry)
    requires ValidGeometry(g)
    ensures Invariant(g, Reset(g), NO_FRAMES)
  {}

  // ---------- One clock ----------

  /** The writer never touches a slot that holds a frame. */
  lemma StoreKeepsFrames(g: Geometry, q: Queue, r: Record, w: Writer, frames: seq<seq<nat>>, first: nat)
    requires ValidGeometry(g) && |q.memory| == g.slots * WORDS_PER_SLOT && Ring(g, q.writeSlot, q.desc)
    requires WritingOk(g, q, r) && WriterKeepsPromise(g, q, r, w) && Holds(q, frames, first)
    ensures var s := Store(g, q, w); var r' := RecordWriter(r, w);
      && |s.memory| == |q.memory| && Ring(g, s.writeSlot, s.desc) && WritingOk(g, s, r')
      && q.desc <= s.desc
      && (if w.Finish? then Holds(s, frames + [Written(r)], first) && |s.desc| == |q.desc| + 1 && Writable(g, q)
          else Holds(s, frames, first) && s.desc == q.desc)
  {
    SlotsDistinct(g, q.writeSlot, q.desc);
    if w.Write? {
      var a := Address(q.writeSlot, w.index);
      assert a < |q.memory|;
      forall k | 0 <= k < |frames|
        ensures Stored(q.memory[a := w.data], q.desc[first + k].slot, frames[k])
      {
        WriteElsewhere(q.memory, q.desc[first + k].slot, frames[k], q.writeSlot, w.index, w.data);
      }
      if |Written(r)| < WORDS_PER_SLOT {
        if r.partial.None? { assert Stored(q.memory, q.writeSlot, []); }
        WriteNext(q.memory, q.writeSlot, Written(r), w.data);
      }
    } else if w.Finish? {
      RingGrows(g, q.writeSlot, q.desc, w.length);
    }
  }

  lemma FetchStored(q: Queue, words: seq<nat>, index: nat)
    requires q.desc != [] && Stored(q.memory, q.desc[0].slot, words) && index < |words|
    ensures Word(q.memory, Address(q.desc[0].slot, index)) == words[index]
  {}

  lemma LastBeatIsLastWord(length: nat, sending: nat)
    requires length >= 1 && sending < WordsOf(length)
    ensures 4 * (sending + 1) >= length <==> sending + 1 == WordsOf(length)
  {}

  /** What the reader does to the frames sent. */
  lemma AdvanceKeepsSending(g: Geometry, q: Queue, r: Record, i: Reader)
    requires Ring(g, q.writeSlot, q.desc) && Holds(q, Waiting(r), Left(q)) && r.sent <= r.accepted
    requires SendingOk(q, r) && ReaderKeepsPromise(q, i)
    ensures var a := Advance(q, i); var r' := RecordReader(r, q, i);
      && r'.sent <= r'.accepted && (a.3 <==> q.phase == Release) && (q.phase == Release ==> q.desc != [])
      && SendingOk(q.(phase := a.0, offset := a.1, fetched := a.2), r')
      && (if a.0 == Release then Waiting(r) != [] && Waiting(r') == Waiting(r)[1..] else Waiting(r') == Waiting(r))
  {
    if q.phase == Read {
      var f := Waiting(r)[0];
      assert |f| == WordsOf(q.desc[0].length);
      LastBeatIsLastWord(q.desc[0].length, |r.sending|);
      assert r.sending + [q.fetched] == f[..|r.sending| + 1];
      if i.ready && LastBeat(q) {
        assert f[..|f|] == f;
        assert r.accepted[|r.sent|] == f;
      } else if i.ready {
        FetchStored(q, f, |r.sending| + 1);
      }
    } else if q.phase == Idle && q.desc != [] && i.idle {
      FetchStored(q, Waiting(r)[0], 0);
    }
  }

  /** The first waiting frame's descriptor, once the reader has moved and before any release. */
  function FirstWaiting(q: Queue, i: Reader): nat {
    if Advance(q, i).0 == Release || q.phase == Release then 1 else 0
  }

  lemma HoldsAfterAdvance(q: Queue, frames: seq<seq<nat>>, later: seq<seq<nat>>, i: Reader)
    requires Holds(q, frames, Left(q))
    requires if Advance(q, i).0 == Release then frames != [] && later == frames[1..] else later == frames
    ensures Holds(q, later, FirstWaiting(q, i))
  {}

  lemma HoldsAfterRelease(q: Queue, desc: seq<Desc>, frames: seq<seq<nat>>)
    requires Holds(q, frames, 1) && desc == q.desc[1..]
    ensures Holds(q.(desc := desc), frames, 0)
  {}

  lemma RecordsCommute(r: Record, q: Queue, i: Input)
    ensures Observe(r, q, i) == RecordWriter(RecordReader(r, q, i.reader), i.writer)
  {}

  lemma WaitingAfterWrite(r: Record, w: Writer)
    requires r.sent <= r.accepted
    ensures RecordWriter(r, w).sent <= RecordWriter(r, w).accepted
    ensures RecordWriter(r, w).sending == r.sending
    ensures Waiting(RecordWriter(r, w)) == if w.Finish? then Waiting(r) + [Written(r)] else Waiting(r)
  {}

  lemma SendingAfterWrite(q: Queue, s: Queue, r: Record, r': Record)
    requires SendingOk(q, r) && s.phase == q.phase && s.offset == q.offset && s.fetched == q.fetched
    requires (q.desc != [] && s.phase != Idle ==> s.desc != []) && Waiting(r) <= Waiting(r') && r'.sending == r.sending
    ensures SendingOk(s, r')
  {}

  lemma BumpWraps(n: nat)
    ensures Bump(n % COUNTER) == (n + 1) % COUNTER
  {}

  lemma CountsKeep(g: Geometry, q: Queue, r: Record, i: Input)
    requires q.counts.received == |r.accepted| % COUNTER
    requires |r.accepted| >= |q.desc| && q.counts.forwarded == (|r.accepted| - |q.desc|) % COUNTER
    requires i.writer.Finish? ==> Writable(g, q)
    ensures var t := Clock(g, q, i); var r' := Observe(r, q, i);
      && t.counts.received == |r'.accepted| % COUNTER
      && |r'.accepted| >= |t.desc| && t.counts.forwarded == (|r'.accepted| - |t.desc|) % COUNTER
  {
    hide Bump;
    BumpWraps(|r.accepted|);
    BumpWraps(|r.accepted| - |q.desc|);
  }

  lemma ClockKeepsFrames(g: Geometry, q: Queue, r: Record, i: Input)
    requires ValidGeometry(g) && FramesKept(g, q, r) && Allowed(g, q, r, i)
    ensures FramesKept(g, Clock(g, q, i), Observe(r, q, i)) && (i.writer.Finish? ==> Writable(g, q))
  {
    hide Holds, WritingOk, SendingOk, Ring, Waiting, Store, Advance, RecordReader, RecordWriter, Observe, Clock,
         WriterKeepsPromise, ReaderKeepsPromise, Written, Left, FirstWaiting, Writable;
    var a := Advance(q, i.reader);
    var r1 := RecordReader(r, q, i.reader);
    var s := Store(g, q, i.writer);
    var r2 := RecordWriter(r1, i.writer);
    AdvanceKeepsSending(g, q, r, i.reader);
    HoldsAfterAdvance(q, Waiting(r), Waiting(r1), i.reader);
    ReaderLeavesWriter(g, q, r, i);
    StoreKeepsFrames(g, q, r1, i.writer, Waiting(r1), FirstWaiting(q, i.reader));
    WaitingAfterWrite(r1, i.writer);
    RecordsCommute(r, q, i);
    SendingAfterWrite(q.(phase := a.0, offset := a.1, fetched := a.2), s.(phase := a.0, offset := a.1, fetched := a.2), r1, r2);
    ClockEnds(g, q, s, r2, i);
  }

  /** Every clock in which writer and reader keep their promises keeps the invariant. */
  lemma ClockKeeps(g: Geometry, q: Queue, r: Record, i: Input)
    requires ValidGeometry(g) && Invariant(g, q, r) && Allowed(g, q, r, i)
    ensures Invariant(g, Clock(g, q, i), Observe(r, q, i))
  {
    hide Holds, WritingOk, SendingOk, Ring, Waiting, Observe, Clock, Allowed, Left, Writable;
    ClockKeepsFrames(g, q, r, i);
    CountsKeep(g, q, r, i);
  }

  lemma ReaderLeavesWriter(g: Geometry, q: Queue, r: Record, i: Input)
    requires WritingOk(g, q, r) && WriterKeepsPromise(g, q, r, i.writer)
    ensures var r1 := RecordReader(r, q, i.reader);
      WritingOk(g, q, r1) && WriterKeepsPromise(g, q, r1, i.writer) && Written(r1) == Written(r)
  {}

  /** Releasing the head descriptor, if the reader has finished with it. */
  lemma ClockEnds(g: Geometry, q: Queue, s: Queue, r: Record, i: Input)
    requires ValidGeometry(g) && s == Store(g, q, i.writer) && |s.memory| == g.slots * WORDS_PER_SLOT
    requires Ring(g, s.writeSlot, s.desc) && WritingOk(g, s, r)
    requires Holds(s, Waiting(r), FirstWaiting(q, i.reader))
    requires var a := Advance(q, i.reader); SendingOk(s.(phase := a.0, offset := a.1, fetched := a.2), r)
    requires q.phase == Release ==> s.desc != [] && q.desc != []
    ensures var t := Clock(g, q, i);
      && |t.memory| == g.slots * WORDS_PER_SLOT && Ring(g, t.writeSlot, t.desc)
      && Holds(t, Waiting(r), Left(t)) && WritingOk(g, t, r) && SendingOk(t, r)
  {
    if q.phase == Release {
      RingShrinks(g, s.writeSlot, s.desc);
      HoldsAfterRelease(s, s.desc[1..], Waiting(r));
    }
  }

  lemma {:induction false} RunKeeps(g: Geometry, inputs: seq<Input>)
    requires ValidGeometry(g) && AllowedRun(g, inputs)
    ensures Invariant(g, Run(g, inputs).0, Run(g, inputs).1)
    decreases |inputs|
  {
    hide Invariant, Clock, Observe, Allowed;
    if inputs == [] {
      StartsRight(g);
    } else {
      var init := inputs[..|inputs| - 1];
      RunKeeps(g, init);
      ClockKeeps(g, Run(g, init).0, Run(g, init).1, inputs[|inputs| - 1]);
    }
  }

  // ---------- The theorems ----------

  /** Frames leave in the order in which they were accepted, each with exactly its stored words. */
  lemma FramesLeaveInOrder(g: Geometry, inputs: seq<Input>)
    requires ValidGeometry(g) && AllowedRun(g, inputs)
    ensures var r := Run(g, inputs).1; r.sent <= r.accepted
  {
    hide Run, AllowedRun;
    RunKeeps(g, inputs);
  }

  /** Occupied slots are the consecutive ring range that ends just before `writeSlot`; a frame being
      written is in none of them, and every frame waiting is still stored whole, with as many
      words as its length needs. */
  lemma NothingIsOverwritten(g: Geometry, inputs: seq<Input>)
    requires ValidGeometry(g) && AllowedRun(g, inputs)
    ensures var (q, r) := Run(g, inputs);
      && (forall i | 0 <= i < |q.desc| :: q.desc[i].slot == SlotAt(g, q.writeSlot, |q.desc|, i) < g.slots)
      && (r.partial.Some? ==> forall i | 0 <= i < |q.desc| :: q.desc[i].slot != q.writeSlot)
      && |Waiting(r)| == |q.desc| - Left(q)
      && (forall k | 0 <= k < |Waiting(r)| ::
            |Waiting(r)[k]| == WordsOf(q.desc[Left(q) + k].length) && Stored(q.memory, q.desc[Left(q) + k].slot, Waiting(r)[k]))
  {
    hide Run, AllowedRun, Stored, WordsOf, SendingOk, Waiting;
    var (q, r) := Run(g, inputs);
    RunKeeps(g, inputs);
    SlotsDistinct(g, q.writeSlot, q.desc);
  }

  /** A descriptor is always free when the writer finishes a frame, so no accepted frame is lost. */
  lemma FreeDescriptorAtFinish(g: Geometry, inputs: seq<Input>, i: Input)
    requires ValidGeometry(g) && AllowedRun(g, inputs)
    requires i.writer.Finish? && Allowed(g, Run(g, inputs).0, Run(g, inputs).1, i)
    ensures Writable(g, Run(g, inputs).0)
  {
    hide Run, AllowedRun;
    RunKeeps(g, inputs);
  }

  lemma DifferenceModulo(a: nat, level: nat)
    requires level <= a
    ensures (a % COUNTER - (a - level) % COUNTER) % COUNTER == level % COUNTER
  {
    var x, y := a / COUNTER, (a - level) / COUNTER;
    assert a % COUNTER - (a - level) % COUNTER == level + (y - x) * COUNTER;
  }

  /** Frames received less frames forwarded is the number of descriptors, modulo the counter. */
  lemma CountersBalance(g: Geometry, inputs: seq<Input>)
    requires ValidGeometry(g) && AllowedRun(g, inputs)
    ensures var q := Run(g, inputs).0; (q.counts.received - q.counts.forwarded) % COUNTER == |q.desc| % COUNTER
  {
    hide Run, AllowedRun, FramesKept;
    RunKeeps(g, inputs);
    DifferenceModulo(|Run(g, inputs).1.accepted|, |Run(g, inputs).0.desc|);
  }

  /** How many of the writer's events satisfy a condition. */
  function CountEvents(inputs: seq<Input>, counts: Writer -> bool): nat
    decreases |inputs|
  {
    if inputs == [] then 0
    else
      var n := |inputs| - 1;
      CountEvents(inputs[..n], counts) + (if counts(inputs[n].writer) then 1 else 0)
  }

  lemma CountsAfterClock(g: Geometry, q: Queue, i: Input)
    requires i.writer.Finish? ==> Writable(g, q)
    ensures var c, t := q.counts, Clock(g, q, i).counts;
      && t.received == (if i.writer.Finish? then Bump(c.received) else c.received)
      && t.dropped == (if i.writer.Drop? then Bump(c.dropped) else c.dropped)
      && t.errors == (if i.writer.Drop? && i.writer.error then Bump(c.errors) else c.errors)
  {
    hide Bump, Advance;
  }

  /** The counters count the frames finished and dropped, and the drops for an error or length. */
  lemma {:induction false} CountersCountEvents(g: Geometry, inputs: seq<Input>)
    requires ValidGeometry(g) && AllowedRun(g, inputs)
    ensures var c := Run(g, inputs).0.counts;
      && c.received == CountEvents(inputs, (w: Writer) => w.Finish?) % COUNTER
      && c.dropped == CountEvents(inputs, (w: Writer) => w.Drop?) % COUNTER
      && c.errors == CountEvents(inputs, (w: Writer) => w.Drop? && w.error) % COUNTER
    decreases |inputs|
  {
    hide Clock, Observe, Bump, Allowed, FinishesArrived, ArrivalsOf, Writable;
    if inputs != [] {
      var init, i := inputs[..|inputs| - 1], inputs[|inputs| - 1];
      CountersCountEvents(g, init);
      if i.writer.Finish? { FreeDescriptorAtFinish(g, init, i); }
      CountsAfterClock(g, Run(g, init).0, i);
      BumpWraps(CountEvents(init, (w: Writer) => w.Finish?));
      BumpWraps(CountEvents(init, (w: Writer) => w.Drop?));
      BumpWraps(CountEvents(init, (w: Writer) => w.Drop? && w.error));
    }
  }
}
