/** The frame queue as its registers and memory: one call of `Tick` is one clock edge. */
module FrameQueueMachine {
  import opened Options
  import opened FrameQueue

  class EthernetFrameQueue {
    const slots: nat
    const mtu: nat
    const memory: array<nat>
    var writeSlot: nat
    var descriptors: seq<Desc>
    var phase: Phase
    var offset: nat
    var fetched: nat
    var counts: Counts
    var errorSeen: bool

    function Shape(): Geometry { Geometry(slots, mtu) }

    function Snapshot(): Queue
      reads this, memory
    {
      Queue(memory[..], writeSlot, descriptors, phase, offset, fetched, counts, errorSeen)
    }

    /** At least two slots and a frame limit within a slot: otherwise the source raises an error.  It
        also asks for a power of two, which only its address bits need. */
    constructor (slots: nat, mtu: nat)
      requires ValidGeometry(Geometry(slots, mtu))
      ensures Shape() == Geometry(slots, mtu) && fresh(memory)
      ensures Snapshot() == Reset(Shape())
    {
      this.slots, this.mtu := slots, mtu;
      memory := new nat[slots * WORDS_PER_SLOT](_ => 0);
      writeSlot, descriptors := 0, [];
      phase, offset, fetched, counts, errorSeen := Phase.Idle, 0, 0, Counts(0, 0, 0, 0), false;
    }

    method ReadWord(slot: nat, index: nat) returns (word: nat)
      ensures word == Word(memory[..], Address(slot, index))
    {
      var a := slot * WORDS_PER_SLOT + index % WORDS_PER_SLOT;
      word := if a < memory.Length then memory[a] else 0;
    }

    method Tick(i: Input)
      modifies this, memory
      ensures Snapshot() == Clock(Shape(), old(Snapshot()), i)
    {
      // The reader's registers are computed from the state before the edge.
      var phase', offset', fetched', release := phase, offset, fetched, false;
      match phase {
        case Idle =>
          if descriptors != [] && i.reader.idle {
            fetched' := ReadWord(descriptors[0].slot, offset / 4);
            phase', offset' := Read, 4;
          }
        case Read =>
          var last := descriptors != [] && offset >= descriptors[0].length;
          if i.reader.done {
            phase' := Release;
          } else if i.reader.ready && descriptors != [] && !last {
            fetched' := ReadWord(descriptors[0].slot, offset / 4);
            offset' := offset + 4;
          }
        case Release =>
          release := descriptors != [];
          phase', offset' := Phase.Idle, 0;
      }
      StoreEdge(i.writer);
      if i.sink.Some? { SinkEdge(i.sink.value); }
      phase, offset, fetched := phase', offset', fetched';
      if release {
        descriptors := descriptors[1..];
        counts := counts.(forwarded := Bump(counts.forwarded));
      }
    }

    method StoreEdge(w: Writer)
      modifies this`writeSlot, this`descriptors, this`counts, memory
      ensures Snapshot() == Store(Shape(), old(Snapshot()), w)
    {
      match w
      case Nothing =>
      case Write(index, data) =>
        var a := writeSlot * WORDS_PER_SLOT + index % WORDS_PER_SLOT;
        if a < memory.Length { memory[a] := data; }
      case Finish(length) =>
        if |descriptors| < slots {
          descriptors := descriptors + [Desc(writeSlot, length)];
          writeSlot := if writeSlot + 1 == slots then 0 else writeSlot + 1;
          counts := counts.(received := Bump(counts.received));
        }
      case Drop(error) =>
        counts := counts.(dropped := Bump(counts.dropped));
        if error { counts := counts.(errors := Bump(counts.errors)); }
    }

    /** The sticky error after an accepted beat. */
    method SinkEdge(b: SinkBeat)
      modifies this`errorSeen
      ensures errorSeen == NextErrorSeen(old(errorSeen), Some(b))
    {
      errorSeen := if b.last then false else errorSeen || b.error;
    }
  }
}
