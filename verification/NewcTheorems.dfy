/** Reading back what was written gives the same records. */
module NewcTheorems {
  import opened Options
  import opened Newc

  // ---------- Fields ----------

  lemma DigitBack(d: nat)
    requires d < 16
    ensures DigitValue(Digit(d)) == Some(d)
  {}

  lemma {:induction false} HexBack(v: nat, n: nat)
    requires v < Power16(n)
    ensures |Hex(v, n)| == n && ParseHex(Hex(v, n)) == Some(v)
    decreases n
  {
    if n > 0 {
      HexBack(v / 16, n - 1);
      DigitBack(v % 16);
      var h := Hex(v / 16, n - 1);
      assert (h + [Digit(v % 16)])[..|h|] == h;
    } else {
      assert Hex(0, 0) == [];
    }
  }

  lemma EightDigits()
    ensures Power16(8) == WORD
  {
    assert Power16(4) == 0x1_0000;
    assert Power16(8) == 16 * (16 * (16 * (16 * Power16(4))));
  }

  lemma {:induction false} HexAllBack(fields: seq<nat>, k: nat)
    requires forall j | 0 <= j < |fields| :: fields[j] < WORD
    ensures |HexAll(fields)| == 8 * |fields|
    ensures k < |fields| ==> HexAll(fields)[8 * k..8 * k + 8] == Hex(fields[k], 8)
    decreases |fields|
  {
    if fields != [] {
      var n := |fields| - 1;
      HexAllBack(fields[..n], k);
      EightDigits();
      HexBack(fields[n], 8);
      var h, last := HexAll(fields[..n]), Hex(fields[n], 8);
      if k < n {
        assert (h + last)[8 * k..8 * k + 8] == h[8 * k..8 * k + 8];
      } else if k == n {
        assert (h + last)[8 * k..8 * k + 8] == last;
      }
    }
  }

  // ---------- One record ----------

  lemma HeaderLength(r: Record)
    requires Representable(r)
    ensures |HexAll(Fields(r))| == 104 && |Header(r)| == HEADER_SIZE + |r.name| + 1
  {
    HexAllBack(Fields(r), 0);
  }

  lemma RecordIsAligned(r: Record)
    ensures |Pad(Header(r))| % 4 == 0 && |Pad(r.data)| % 4 == 0 && |Emit(r)| % 4 == 0
  {}

  lemma FieldBack(r: Record, rest: Bytes, k: nat)
    requires Representable(r) && k < 13
    ensures |Emit(r) + rest| >= HEADER_SIZE && FieldAt(Emit(r) + rest, k) == Some(Fields(r)[k])
  {
    hide HexAll, ParseHex, Hex, Fields, Power16;
    var b := Emit(r) + rest;
    HeaderLength(r);
    FieldsAreThirteen(r);
    HexAllBack(Fields(r), k);
    EightDigits();
    HexBack(Fields(r)[k], 8);
    assert b[6 + 8 * k..14 + 8 * k] == HexAll(Fields(r))[8 * k..8 * k + 8];
  }

  lemma FieldsAreThirteen(r: Record)
    ensures |Fields(r)| == 13
  {}

  lemma NameBack(name: Bytes)
    requires forall i | 0 <= i < |name| :: name[i] != 0
    ensures NameLength(name + [0]) == |name|
  {
    hide NameLength;
    var b := name + [0];
    assert b[|name|] == 0;
    assert forall i | 0 <= i < |name| :: b[i] == name[i];
  }

  /** Where the parts of an emitted record are. */
  lemma PartsOfRecord(r: Record, rest: Bytes)
    requires Representable(r)
    ensures var b := Emit(r) + rest; var start := HEADER_SIZE + |r.name| + 1 + Gap(HEADER_SIZE + |r.name| + 1);
      && b[..6] == MAGIC
      && start + |r.data| + Gap(|r.data|) == |Emit(r)| <= |b|
      && b[HEADER_SIZE..HEADER_SIZE + |r.name| + 1] == r.name + [0]
      && b[start..start + |r.data|] == r.data
  {
    hide HexAll, Fields;
    HeaderLength(r);
    var b := Emit(r) + rest;
    var h := MAGIC + HexAll(Fields(r));
    assert Header(r) == h + (r.name + [0]);
    assert b == h + (r.name + [0]) + Zeros(Gap(|Header(r)|)) + r.data + Zeros(Gap(|r.data|)) + rest;
  }

  lemma RecordBack(r: Record, rest: Bytes)
    requires Representable(r)
    ensures ReadRecord(Emit(r) + rest) == Some((r, |Emit(r)|)) && 0 < |Emit(r)|
  {
    hide Emit, FieldAt;
    var b := Emit(r) + rest;
    PartsOfRecord(r, rest);
    NameBack(r.name);
    forall k | 0 <= k < 13 ensures |b| >= HEADER_SIZE && FieldAt(b, k) == Some(Fields(r)[k]) { FieldBack(r, rest, k); }
    assert |b| >= HEADER_SIZE by { FieldBack(r, rest, 0); }
    assert (r.name + [0])[..|r.name|] == r.name;
  }

  /** Where the format has each field of a header: the numbers in hexadecimal from byte 6 on, eight
      digits each, and then the name and a zero byte. */
  lemma HeaderLayout(r: Record, rest: Bytes)
    requires Representable(r)
    ensures var b := Emit(r) + rest;
      && |b| >= 110 + |r.name| + 1
      && b[..6] == [48, 55, 48, 55, 48, 49]
      && ParseHex(b[6..14]) == Some(r.ino) && ParseHex(b[14..22]) == Some(r.mode)
      && ParseHex(b[22..30]) == Some(r.uid) && ParseHex(b[30..38]) == Some(r.gid)
      && ParseHex(b[38..46]) == Some(1) && ParseHex(b[46..54]) == Some(0)
      && ParseHex(b[54..62]) == Some(|r.data|)
      && ParseHex(b[62..70]) == Some(0) && ParseHex(b[70..78]) == Some(0)
      && ParseHex(b[78..86]) == Some(r.deviceMajor) && ParseHex(b[86..94]) == Some(r.deviceMinor)
      && ParseHex(b[94..102]) == Some(|r.name| + 1) && ParseHex(b[102..110]) == Some(0)
      && b[110..110 + |r.name| + 1] == r.name + [0]
  {
    hide Emit, ParseHex;
    var b := Emit(r) + rest;
    PartsOfRecord(r, rest);
    assert Fields(r) == [r.ino, r.mode, r.uid, r.gid, 1, 0, |r.data|, 0, 0, r.deviceMajor, r.deviceMinor, |r.name| + 1, 0];
    forall k | 0 <= k < 13 ensures |b| >= HEADER_SIZE && ParseHex(b[6 + 8 * k..14 + 8 * k]) == Some(Fields(r)[k]) {
      FieldBack(r, rest, k);
    }
    Thirteen(b, Fields(r));
  }

  lemma Thirteen(b: Bytes, f: seq<nat>)
    requires |b| >= 110 && |f| == 13
    requires forall k | 0 <= k < 13 :: ParseHex(b[6 + 8 * k..14 + 8 * k]) == Some(f[k])
    ensures ParseHex(b[6..14]) == Some(f[0]) && ParseHex(b[14..22]) == Some(f[1]) && ParseHex(b[22..30]) == Some(f[2])
    ensures ParseHex(b[30..38]) == Some(f[3]) && ParseHex(b[38..46]) == Some(f[4]) && ParseHex(b[46..54]) == Some(f[5])
    ensures ParseHex(b[54..62]) == Some(f[6]) && ParseHex(b[62..70]) == Some(f[7]) && ParseHex(b[70..78]) == Some(f[8])
    ensures ParseHex(b[78..86]) == Some(f[9]) && ParseHex(b[86..94]) == Some(f[10]) && ParseHex(b[94..102]) == Some(f[11])
    ensures ParseHex(b[102..110]) == Some(f[12])
  {
    hide ParseHex;
    assert ParseHex(b[6 + 8 * 0..14 + 8 * 0]) == Some(f[0]) && ParseHex(b[6 + 8 * 1..14 + 8 * 1]) == Some(f[1]);
    assert ParseHex(b[6 + 8 * 2..14 + 8 * 2]) == Some(f[2]) && ParseHex(b[6 + 8 * 3..14 + 8 * 3]) == Some(f[3]);
    assert ParseHex(b[6 + 8 * 4..14 + 8 * 4]) == Some(f[4]) && ParseHex(b[6 + 8 * 5..14 + 8 * 5]) == Some(f[5]);
    assert ParseHex(b[6 + 8 * 6..14 + 8 * 6]) == Some(f[6]) && ParseHex(b[6 + 8 * 7..14 + 8 * 7]) == Some(f[7]);
    assert ParseHex(b[6 + 8 * 8..14 + 8 * 8]) == Some(f[8]) && ParseHex(b[6 + 8 * 9..14 + 8 * 9]) == Some(f[9]);
    assert ParseHex(b[6 + 8 * 10..14 + 8 * 10]) == Some(f[10]) && ParseHex(b[6 + 8 * 11..14 + 8 * 11]) == Some(f[11]);
    assert ParseHex(b[6 + 8 * 12..14 + 8 * 12]) == Some(f[12]);
  }

  /** The last digit counts ones and each before it sixteen times as much; "0" to "9" and then "a" to
      "f" are the digits. */
  lemma HexDigits(b: Bytes, d: Byte)
    ensures ParseHex([]) == Some(0)
    ensures ParseHex(b + [d])
            == if ParseHex(b).None? then None
               else if 48 <= d <= 57 then Some(16 * ParseHex(b).value + (d as nat - 48))
               else if 97 <= d <= 102 then Some(16 * ParseHex(b).value + 10 + (d as nat - 97))
               else None
  {
    assert (b + [d])[..|b|] == b;
  }

  // ---------- Whole archives ----------

  lemma Regroup(a: Bytes, b: Bytes, c: Bytes)
    ensures (a + b) + c == a + (b + c)
  {}

  lemma {:induction false} EmitFirst(records: seq<Record>)
    requires records != []
    ensures EmitAll(records) == Emit(records[0]) + EmitAll(records[1..])
    decreases |records|
  {
    hide Emit;
    var n := |records| - 1;
    if n == 0 {
      assert records[..0] == [] && records[1..] == [];
    } else {
      EmitFirst(records[..n]);
      assert records[..n][1..] == records[1..][..n - 1];
      assert EmitAll(records[1..]) == EmitAll(records[1..][..n - 1]) + Emit(records[n]);
      Regroup(Emit(records[0]), EmitAll(records[1..][..n - 1]), Emit(records[n]));
    }
  }

  /** The records before the first that has the name of a trailer. */
  function UpToTrailer(records: seq<Record>): (r: seq<Record>)
    ensures r <= records && forall i | 0 <= i < |r| :: r[i].name != TRAILER
    ensures |r| < |records| ==> records[|r|].name == TRAILER
  {
    if records == [] || records[0].name == TRAILER then [] else [records[0]] + UpToTrailer(records[1..])
  }

  lemma WholeWithoutTrailer(records: seq<Record>)
    ensures UpToTrailer(records) == records <==> forall i | 0 <= i < |records| :: records[i].name != TRAILER
  {
    hide UpToTrailer;
    assert |UpToTrailer(records)| == |records| ==> UpToTrailer(records) == records;
  }

  /** Reading an archive gives back its records, names, modes, owners and contents, in order, up to the
      first with the name of a trailer, and nothing after the trailer matters.  So all of them are
      read back if and only if none has that name. */
  lemma ArchiveBack(records: seq<Record>, trailer: Record, rest: Bytes)
    requires forall i | 0 <= i < |records| :: Representable(records[i])
    requires Representable(trailer) && trailer.name == TRAILER
    ensures var read := ReadArchive(EmitAll(records) + Emit(trailer) + rest);
      && read == Some(UpToTrailer(records))
      && (read == Some(records) <==> forall i | 0 <= i < |records| :: records[i].name != TRAILER)
  {
    hide Emit, EmitAll, ReadArchive, Representable, UpToTrailer;
    ReadsUpToTrailer(records, trailer, rest);
    WholeWithoutTrailer(records);
  }

  lemma {:induction false} ReadsUpToTrailer(records: seq<Record>, trailer: Record, rest: Bytes)
    requires forall i | 0 <= i < |records| :: Representable(records[i])
    requires Representable(trailer) && trailer.name == TRAILER
    ensures ReadArchive(EmitAll(records) + Emit(trailer) + rest) == Some(UpToTrailer(records))
    decreases |records|
  {
    hide Emit, ReadRecord, Representable;
    if records == [] {
      assert EmitAll([]) + Emit(trailer) + rest == Emit(trailer) + rest;
      RecordBack(trailer, rest);
    } else {
      EmitFirst(records);
      var first, others := records[0], records[1..];
      var tail := EmitAll(others) + Emit(trailer) + rest;
      var b := EmitAll(records) + Emit(trailer) + rest;
      assert b == Emit(first) + tail;
      RecordBack(first, tail);
      if first.name != TRAILER {
        ReadsUpToTrailer(others, trailer, rest);
        assert b[|Emit(first)|..] == tail;
      }
    }
  }

  lemma {:induction false} ArchivesAreAligned(records: seq<Record>)
    ensures |EmitAll(records)| % 4 == 0
    decreases |records|
  {
    hide Emit;
    if records != [] {
      ArchivesAreAligned(records[..|records| - 1]);
      RecordIsAligned(records[|records| - 1]);
    }
  }

  /** Where the header and the content of a record are that follows other bytes. */
  lemma RecordInPlace(before: Bytes, r: Record, rest: Bytes)
    requires |before| % 4 == 0
    ensures var b := before + Emit(r) + rest;
      var content := |before| + |Pad(Header(r))|;
      && content % 4 == 0 && content + |r.data| <= |b|
      && b[|before|..|before| + |Header(r)|] == Header(r) && b[content..content + |r.data|] == r.data
  {
    hide Header, Gap;
    assert before + Emit(r) + rest
        == before + Header(r) + Zeros(Gap(|Header(r)|)) + r.data + Zeros(Gap(|r.data|)) + rest;
  }

  /** In an archive, and whatever follows it, every header and every content starts at a multiple of
      four bytes. */
  lemma {:induction false} RecordsAreAligned(records: seq<Record>, i: nat, rest: Bytes)
    requires i < |records|
    ensures var r := records[i]; var b := EmitAll(records) + rest;
      var header := |EmitAll(records[..i])|; var content := header + |Pad(Header(r))|;
      && header % 4 == 0 && content % 4 == 0 && content + |r.data| <= |b|
      && b[header..header + |Header(r)|] == Header(r) && b[content..content + |r.data|] == r.data
    decreases |records|
  {
    hide Header, Emit, Pad;
    var n := |records| - 1;
    var r := records[i];
    if i < n {
      RecordsAreAligned(records[..n], i, Emit(records[n]) + rest);
      assert records[..n][..i] == records[..i];
      Regroup(EmitAll(records[..n]), Emit(records[n]), rest);
    } else {
      ArchivesAreAligned(records[..i]);
      RecordInPlace(EmitAll(records[..i]), r, rest);
    }
  }
}
