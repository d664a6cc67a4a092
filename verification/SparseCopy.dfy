/** Taking the root partition out of a disk image: finding it in the partition table, and the copy
    that seeks over chunks of zeros. */
module SparseCopy {
  import opened Options
  import opened Newc

  const CHUNK := 0x10_0000

  function Least(a: nat, b: nat): nat { if a < b then a else b }

  /** What a read of n bytes at some position returns: fewer bytes at the end of the file. */
  function Read(file: Bytes, pos: nat, n: nat): (b: Bytes)
    ensures |b| <= n && (pos + n <= |file| ==> b == file[pos..pos + n])
  {
    file[Least(pos, |file|)..Least(pos + n, |file|)]
  }

  function LittleEndian(b: Bytes): nat { if b == [] then 0 else b[0] as nat + 256 * LittleEndian(b[1..]) }

  /** The n bytes of a number, least significant first. */
  function LittleEndianBytes(v: nat, n: nat): (b: Bytes)
    ensures |b| == n
  {
    if n == 0 then [] else [(v % 256) as Byte] + LittleEndianBytes(v / 256, n - 1)
  }

  function Power256(n: nat): nat { if n == 0 then 1 else 256 * Power256(n - 1) }

  lemma {:induction false} LittleEndianBack(v: nat, n: nat)
    requires v < Power256(n)
    ensures LittleEndian(LittleEndianBytes(v, n)) == v
  {
    if n > 0 {
      LittleEndianBack(v / 256, n - 1);
      var rest := LittleEndianBytes(v / 256, n - 1);
      assert ([(v % 256) as Byte] + rest)[1..] == rest;
    }
  }

  /** In eight bytes the first counts ones, and each other 256 times as much as the one before it. */
  lemma EightBytes(b: Bytes)
    requires |b| == 8
    ensures LittleEndian(b) == b[0] as nat + 0x100 * b[1] as nat + 0x1_0000 * b[2] as nat + 0x100_0000 * b[3] as nat
                               + 0x1_0000_0000 * (b[4] as nat + 0x100 * b[5] as nat + 0x1_0000 * b[6] as nat
                                                  + 0x100_0000 * b[7] as nat)
  {
    FourBytes(b);
    FourBytes(b[4..]);
    assert b[4..][4..] == [];
  }

  lemma FourBytes(b: Bytes)
    requires |b| >= 4
    ensures LittleEndian(b) == b[0] as nat + 0x100 * b[1] as nat + 0x1_0000 * b[2] as nat + 0x100_0000 * b[3] as nat
                               + 0x1_0000_0000 * LittleEndian(b[4..])
  {
    NextByte(b);
    NextByte(b[1..]);
    NextByte(b[2..]);
    NextByte(b[3..]);
    assert b[1..][1..] == b[2..] && b[2..][1..] == b[3..] && b[3..][1..] == b[4..];
  }

  lemma NextByte(b: Bytes)
    requires b != []
    ensures LittleEndian(b) == b[0] as nat + 256 * LittleEndian(b[1..])
  {}

  // ---------- The partition table ----------

  /** "EFI PART". */
  const SIGNATURE: Bytes := [69, 70, 73, 32, 80, 65, 82, 84]

  const EXT4_MAGIC: Bytes := [0x53, 0xEF]

  datatype Table = Table(start: nat, count: nat, entrySize: nat)

  datatype Partition = Partition(offset: nat, length: nat)

  function TableOf(raw: Bytes): Result<Table, string> {
    var header := Read(raw, 512, 92);
    if |header| < 8 || header[..8] != SIGNATURE then Err("expected a GPT cloud disk")
    else if |header| < 88 then Err("short header")
    else
      var t := Table(LittleEndian(header[72..80]), LittleEndian(header[80..84]), LittleEndian(header[84..88]));
      if 0 < t.count <= 4096 && 128 <= t.entrySize <= 4096 then Ok(t) else Err("invalid GPT geometry")
  }

  function EntryOf(raw: Bytes, t: Table, i: nat): Bytes { Read(raw, t.start * 512 + i * t.entrySize, t.entrySize) }

  predicate Unused(entry: Bytes) { |entry| >= 16 && entry[..16] == Zeros(16) }

  function First(entry: Bytes): nat
    requires |entry| >= 48
  {
    LittleEndian(entry[32..40])
  }

  function Last(entry: Bytes): nat
    requires |entry| >= 48
  {
    LittleEndian(entry[40..48])
  }

  /** An entry that is unused, or whose partition lies inside the disk. */
  predicate EntryFits(raw: Bytes, entry: Bytes) {
    Unused(entry) || (|entry| >= 48 && First(entry) <= Last(entry) && (Last(entry) + 1) * 512 <= |raw|)
  }

  predicate IsExt4(raw: Bytes, entry: Bytes) {
    !Unused(entry) && |entry| >= 48 && Read(raw, First(entry) * 512 + 1024 + 56, 2) == EXT4_MAGIC
  }

  function PartitionOf(entry: Bytes): Partition
    requires |entry| >= 48 && First(entry) <= Last(entry)
  {
    Partition(First(entry) * 512, (Last(entry) - First(entry) + 1) * 512)
  }

  /** The one ext4 partition of a disk whose table is sound. */
  predicate IsRoot(raw: Bytes, t: Table, i: nat) {
    && i < t.count
    && (forall k | 0 <= k < t.count :: EntryFits(raw, EntryOf(raw, t, k)))
    && IsExt4(raw, EntryOf(raw, t, i))
    && (forall k | 0 <= k < t.count && k != i :: !IsExt4(raw, EntryOf(raw, t, k)))
  }

  /** A table with these numbers where the format has them: the start at byte 72 of the second sector, the
      count at 80 and the size of an entry at 84. */
  lemma TableAsWritten(raw: Bytes, start: nat, count: nat, entrySize: nat)
    requires |raw| >= 600 && raw[512..520] == [69, 70, 73, 32, 80, 65, 82, 84]
    requires start < Power256(8) && count < Power256(4) && entrySize < Power256(4)
    requires raw[584..592] == LittleEndianBytes(start, 8)
    requires raw[592..596] == LittleEndianBytes(count, 4) && raw[596..600] == LittleEndianBytes(entrySize, 4)
    ensures if 0 < count <= 4096 && 128 <= entrySize <= 4096 then TableOf(raw) == Ok(Table(start, count, entrySize))
            else TableOf(raw).Err?
  {
    hide LittleEndian, LittleEndianBytes, Power256;
    var header := Read(raw, 512, 92);
    assert 88 <= |header| && header == raw[512..512 + |header|];
    assert header[..8] == raw[512..520] && header[72..80] == raw[584..592];
    assert header[80..84] == raw[592..596] && header[84..88] == raw[596..600];
    LittleEndianBack(start, 8);
    LittleEndianBack(count, 4);
    LittleEndianBack(entrySize, 4);
  }

  /** An entry with its first and last sector at bytes 32 and 40 is the partition from the one to the end
      of the other. */
  lemma PartitionAsWritten(raw: Bytes, entry: Bytes, first: nat, last: nat)
    requires |entry| >= 48 && first < Power256(8) && last < Power256(8)
    requires entry[32..40] == LittleEndianBytes(first, 8) && entry[40..48] == LittleEndianBytes(last, 8)
    requires first <= last
    ensures First(entry) == first && Last(entry) == last
    ensures PartitionOf(entry) == Partition(first * 512, (last - first + 1) * 512)
  {
    hide LittleEndian, LittleEndianBytes, Power256;
    LittleEndianBack(first, 8);
    LittleEndianBack(last, 8);
  }

  /** Finds the ext4 partition; succeeds exactly when the table is sound and has exactly one. */
  method Ext4Partition(raw: Bytes) returns (r: Result<Partition, string>)
    ensures r.Ok? <==> TableOf(raw).Ok? && exists i :: IsRoot(raw, TableOf(raw).value, i)
    ensures r.Ok? ==> forall i | IsRoot(raw, TableOf(raw).value, i) :: r.value == PartitionOf(EntryOf(raw, TableOf(raw).value, i))
    ensures r.Ok? ==> 0 < r.value.length && r.value.offset + r.value.length <= |raw|
  {
    hide Unused, First, Last, Read, LittleEndian;
    var table := TableOf(raw);
    if table.Err? { return Err(table.error); }
    var t := table.value;
    var candidates: seq<Partition> := [];
    ghost var where: seq<nat> := [];
    for index := 0 to t.count
      invariant forall k | 0 <= k < index :: EntryFits(raw, EntryOf(raw, t, k))
      invariant |where| == |candidates| && forall c | 0 <= c < |where| :: where[c] < index
      invariant forall c | 0 <= c < |where| :: IsExt4(raw, EntryOf(raw, t, where[c])) && FoundAt(raw, t, where[c], candidates[c])
      invariant forall k | 0 <= k < index && IsExt4(raw, EntryOf(raw, t, k)) :: k in where
      invariant forall c, e | 0 <= c < e < |where| :: where[c] < where[e]
    {
      var entry := EntryOf(raw, t, index);
      if Unused(entry) { continue; }
      if !EntryFits(raw, entry) { return Err("partition outside cloud disk"); }
      if Read(raw, First(entry) * 512 + 1024 + 56, 2) == EXT4_MAGIC {
        candidates := candidates + [PartitionOf(entry)];
        where := where + [index];
      }
    }
    if |candidates| != 1 {
      NotExactlyOne(raw, t, where);
      return Err("expected exactly one ext4 root partition");
    }
    assert where == [where[0]];
    assert IsRoot(raw, t, where[0]);
    r := Ok(candidates[0]);
    PartitionInside(raw, t, where[0]);
  }

  predicate FoundAt(raw: Bytes, t: Table, i: nat, p: Partition) {
    var entry := EntryOf(raw, t, i);
    EntryFits(raw, entry) && !Unused(entry) && p == PartitionOf(entry)
  }

  lemma NotExactlyOne(raw: Bytes, t: Table, where: seq<nat>)
    requires |where| != 1
    requires forall c | 0 <= c < |where| :: where[c] < t.count && IsExt4(raw, EntryOf(raw, t, where[c]))
    requires forall k | 0 <= k < t.count && IsExt4(raw, EntryOf(raw, t, k)) :: k in where
    requires forall c, e | 0 <= c < e < |where| :: where[c] < where[e]
    ensures forall i :: !IsRoot(raw, t, i)
  {
    hide IsExt4, EntryOf, EntryFits;
    if |where| >= 2 { assert where[0] < where[1]; }
  }

  lemma PartitionInside(raw: Bytes, t: Table, i: nat)
    requires IsRoot(raw, t, i)
    ensures var p := PartitionOf(EntryOf(raw, t, i)); 0 < p.length && p.offset + p.length <= |raw|
  {
    assert EntryFits(raw, EntryOf(raw, t, i));
  }

  // ---------- The copy ----------

  /** A content as it reads once the gap up to some size is filled with zeros, or cut off there. */
  function FilledTo(content: Bytes, size: nat): Bytes {
    if |content| <= size then content + Zeros(size - |content|) else content[..size]
  }

  /** A file written at a position that may run ahead of its end. */
  class SparseFile {
    var content: Bytes
    var pos: nat

    constructor ()
      ensures content == [] && pos == 0
    {
      content, pos := [], 0;
    }

    method Write(chunk: Bytes)
      modifies this
      ensures pos == old(pos) + |chunk|
      ensures content == FilledTo(old(content), old(pos)) + chunk + (if pos < |old(content)| then old(content)[pos..] else [])
      ensures |old(content)| <= old(pos) ==>
                |content| == pos && FilledTo(content, pos) == FilledTo(old(content), old(pos)) + chunk
    {
      var end := pos + |chunk|;
      var head := if |content| <= pos then content + Zeros(pos - |content|) else content[..pos];
      content := head + chunk + (if end < |content| then content[end..] else []);
      pos := end;
    }

    method Skip(n: nat)
      modifies this`pos
      ensures pos == old(pos) + n
    {
      pos := pos + n;
    }

    method Truncate(size: nat)
      modifies this`content
      ensures content == FilledTo(old(content), size)
    {
      content := if |content| <= size then content + Zeros(size - |content|) else content[..size];
    }
  }

  predicate AllZero(b: Bytes) { forall i | 0 <= i < |b| :: b[i] == 0 }

  /** Whether stripping zero bytes leaves anything. */
  method HasData(b: Bytes) returns (found: bool)
    ensures found <==> !AllZero(b)
  {
    for i := 0 to |b|
      invariant AllZero(b[..i])
    {
      if b[i] != 0 { return true; }
    }
    assert b[..|b|] == b;
    found := false;
  }

  /** Skipping zeros reads the same as writing them. */
  lemma SkippedReadsZero(content: Bytes, pos: nat, chunk: Bytes)
    requires |content| <= pos && AllZero(chunk)
    ensures FilledTo(content, pos + |chunk|) == FilledTo(content, pos) + chunk
  {}

  method CopyChunks(raw: Bytes, p: Partition) returns (copy: Bytes)
    requires p.offset + p.length <= |raw|
    ensures copy == raw[p.offset..p.offset + p.length]
  {
    hide FilledTo, Read;
    var target := new SparseFile();
    var at: nat, remaining: nat := p.offset, p.length;
    NothingFilled();
    while remaining > 0
      invariant at + remaining == p.offset + p.length && p.offset <= at
      invariant target.pos == at - p.offset && |target.content| <= target.pos
      invariant FilledTo(target.content, target.pos) == raw[p.offset..at]
      decreases remaining
    {
      var n := Least(CHUNK, remaining);
      var chunk := Read(raw, at, n);
      // The source fails on an empty chunk; inside an accepted partition there is none.
      assert chunk == raw[at..at + n] && n > 0;
      assert raw[p.offset..at + n] == raw[p.offset..at] + chunk;
      var data := HasData(chunk);
      if data {
        target.Write(chunk);
      } else {
        SkippedReadsZero(target.content, target.pos, chunk);
        target.Skip(n);
      }
      at, remaining := at + n, remaining - n;
    }
    target.Truncate(p.length);
    copy := target.content;
  }

  lemma NothingFilled()
    ensures FilledTo([], 0) == []
  {}

  /** Copies the root partition; the result is exactly that stretch of the disk, and copying never
      fails once the partition has been found. */
  method ExtractPartition(raw: Bytes) returns (r: Result<Bytes, string>)
    ensures r.Ok? <==> TableOf(raw).Ok? && exists i :: IsRoot(raw, TableOf(raw).value, i)
    ensures r.Ok? ==> forall i | IsRoot(raw, TableOf(raw).value, i) ::
              var p := PartitionOf(EntryOf(raw, TableOf(raw).value, i));
              p.offset + p.length <= |raw| && r.value == raw[p.offset..p.offset + p.length]
  {
    hide IsRoot, TableOf, EntryOf;
    var found := Ext4Partition(raw);
    if found.Err? { return Err(found.error); }
    var copy := CopyChunks(raw, found.value);
    r := Ok(copy);
  }
}
