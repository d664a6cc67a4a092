/** The newc archive format as the image builders write it, and a reader of it. */
module Newc {
  import opened Options

  newtype Byte = x: int | 0 <= x < 256

  type Bytes = seq<Byte>

  const WORD := 0x1_0000_0000

  /** The magic number, "070701". */
  const MAGIC: Bytes := [48, 55, 48, 55, 48, 49]

  /** The name of the last record, "TRAILER!!!". */
  const TRAILER: Bytes := [84, 82, 65, 73, 76, 69, 82, 33, 33, 33]

  const HEADER_SIZE := 110

  datatype Record = Record(
    ino: nat, mode: nat, uid: nat, gid: nat, name: Bytes, data: Bytes, deviceMajor: nat, deviceMinor: nat)

  // ---------- Hexadecimal fields ----------

  function Power16(n: nat): nat { if n == 0 then 1 else 16 * Power16(n - 1) }

  function Digit(d: nat): Byte
    requires d < 16
  {
    if d < 10 then (48 + d) as Byte else (87 + d) as Byte
  }

  function DigitValue(b: Byte): Option<nat> {
    if 48 <= b < 58 then Some(b as nat - 48) else if 97 <= b < 103 then Some(b as nat - 87) else None
  }

  /** At least n hexadecimal digits, and more where the value needs them. */
  function Hex(v: nat, n: nat): Bytes
    decreases v + n
  {
    if v == 0 && n == 0 then []
    else Hex(v / 16, if n > 0 then n - 1 else 0) + [Digit(v % 16)]
  }

  function ParseHex(b: Bytes): Option<nat>
    decreases |b|
  {
    if b == [] then Some(0)
    else
      var high, low := ParseHex(b[..|b| - 1]), DigitValue(b[|b| - 1]);
      if high.Some? && low.Some? then Some(16 * high.value + low.value) else None
  }

  // ---------- Records ----------

  function Zeros(n: nat): (z: Bytes)
    ensures |z| == n && forall i | 0 <= i < n :: z[i] == 0
  {
    seq(n, _ => 0)
  }

  /** How many bytes bring a length up to a multiple of four. */
  function Gap(n: nat): (g: nat)
    ensures g < 4 && (n + g) % 4 == 0
  {
    (4 - n % 4) % 4
  }

  function Pad(b: Bytes): Bytes { b + Zeros(Gap(|b|)) }

  /** The thirteen fields of a header. */
  function Fields(r: Record): seq<nat> {
    [r.ino, r.mode, r.uid, r.gid, 1, 0, |r.data|, 0, 0, r.deviceMajor, r.deviceMinor, |r.name| + 1, 0]
  }

  function HexAll(fields: seq<nat>): Bytes
    decreases |fields|
  {
    if fields == [] then [] else HexAll(fields[..|fields| - 1]) + Hex(fields[|fields| - 1], 8)
  }

  function Header(r: Record): Bytes { MAGIC + HexAll(Fields(r)) + r.name + [0] }

  function Emit(r: Record): Bytes { Pad(Header(r)) + Pad(r.data) }

  function EmitAll(records: seq<Record>): Bytes
    decreases |records|
  {
    if records == [] then [] else EmitAll(records[..|records| - 1]) + Emit(records[|records| - 1])
  }

  // ---------- Reading ----------

  /** Where a name ends: at its first zero byte. */
  function NameLength(b: Bytes): (n: nat)
    ensures n <= |b| && (n < |b| ==> b[n] == 0) && forall i | 0 <= i < n :: b[i] != 0
  {
    if b == [] || b[0] == 0 then 0 else 1 + NameLength(b[1..])
  }

  function FieldAt(b: Bytes, k: nat): Option<nat>
    requires k < 13 && |b| >= HEADER_SIZE
  {
    ParseHex(b[6 + 8 * k..14 + 8 * k])
  }

  /** One record and the number of bytes that it takes. */
  function ReadRecord(b: Bytes): Option<(Record, nat)> {
    if |b| < HEADER_SIZE || b[..6] != MAGIC || exists k | 0 <= k < 13 :: FieldAt(b, k).None? then None
    else
      var size, nameSize := FieldAt(b, 6).value, FieldAt(b, 11).value;
      var start := HEADER_SIZE + nameSize + Gap(HEADER_SIZE + nameSize);
      var end := start + size + Gap(size);
      if nameSize == 0 || |b| < end then None
      else
        var name := b[HEADER_SIZE..HEADER_SIZE + nameSize];
        if NameLength(name) != nameSize - 1 then None
        else
          Some((Record(FieldAt(b, 0).value, FieldAt(b, 1).value, FieldAt(b, 2).value, FieldAt(b, 3).value,
                       name[..nameSize - 1], b[start..start + size], FieldAt(b, 9).value, FieldAt(b, 10).value),
                end))
  }

  /** The records of an archive up to its trailer. */
  function ReadArchive(b: Bytes): Option<seq<Record>>
    decreases |b|
  {
    var first := ReadRecord(b);
    if first.None? then None
    else if first.value.0.name == TRAILER then Some([])
    else if !(0 < first.value.1 <= |b|) then None
    else
      var rest := ReadArchive(b[first.value.1..]);
      if rest.None? then None else Some([first.value.0] + rest.value)
  }

  /** Every field fits its eight digits and the name has no zero byte. */
  predicate Representable(r: Record) {
    && (forall k | 0 <= k < 13 :: Fields(r)[k] < WORD)
    && (forall i | 0 <= i < |r.name| :: r.name[i] != 0)
  }
}
