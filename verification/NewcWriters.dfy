/** The two archive writers: the overlay appended to a released archive, and the export of a root
    filesystem. */
module NewcWriters {
  import opened Collections
  import opened Options
  import opened Newc
  import opened NewcTheorems

  const REGULAR := 0x8000
  const DIRECTORY := 0x4000
  const SYMLINK := 0xA000
  const CHARACTER_DEVICE := 0x2000

  /** The type bits of a mode. */
  function TypeOf(mode: nat): nat { mode / 0x1000 % 16 * 0x1000 }

  // ---------- The overlay ----------

  datatype File = File(name: Bytes, content: Bytes)

  function OverlayRecord(f: File): Record { Record(0, REGULAR + 0x1ED, 0, 0, f.name, f.content, 0, 0) }

  /** A regular file of root that everyone may read and run and only root may write, with this name
      and content. */
  predicate IsOverlaid(r: Record, f: File) {
    && r.name == f.name && r.data == f.content
    && r.mode == 0x81ED && r.uid == 0 && r.gid == 0 && r.ino == 0 && r.deviceMajor == 0 && r.deviceMinor == 0
  }

  lemma OverlaidRecord(f: File)
    ensures IsOverlaid(OverlayRecord(f), f)
  {}

  function OverlayRecords(files: seq<File>): (r: seq<Record>)
    ensures |r| == |files| && forall i | 0 <= i < |files| :: r[i] == OverlayRecord(files[i])
  {
    seq(|files|, i requires 0 <= i < |files| => OverlayRecord(files[i]))
  }

  lemma OverlayOneMore(files: seq<File>, f: File)
    ensures OverlayRecords(files + [f]) == OverlayRecords(files) + [OverlayRecord(f)]
  {}

  lemma EmitOneMore(records: seq<Record>, r: Record)
    ensures EmitAll(records + [r]) == EmitAll(records) + Emit(r)
  {
    assert (records + [r])[..|records|] == records;
  }

  /** Appends records to what has been written. */
  method WriteAll(before: Bytes, records: seq<Record>) returns (out: Bytes)
    ensures out == before + EmitAll(records)
  {
    hide Emit, EmitAll;
    out := before;
    NothingEmitted();
    for i := 0 to |records|
      invariant out == before + EmitAll(records[..i])
    {
      assert records[..i + 1] == records[..i] + [records[i]];
      EmitOneMore(records[..i], records[i]);
      Regroup(before, EmitAll(records[..i]), Emit(records[i]));
      out := out + Emitted(records[i]);
    }
    assert records[..|records|] == records;
  }

  /** Appends the files, and then the trailer, on a multiple of four bytes.  What was there before
      stays, and reading from where the overlay starts gives the files in order, up to the first with
      the name of the trailer. */
  method Overlay(raw: Bytes, files: seq<File>) returns (out: Bytes)
    ensures var start := |Pad(raw)|; var records := OverlayRecords(files);
      && start % 4 == 0 && start <= |out| && raw <= out && |out| % 4 == 0
      && out[start..] == EmitAll(records) + Emit(OverlayRecord(File(TRAILER, [])))
      && ((forall i | 0 <= i < |files| :: Representable(records[i])) ==>
            && ReadArchive(out[start..]) == Some(UpToTrailer(records))
            && (ReadArchive(out[start..]) == Some(records) <==> forall f | f in files :: f.name != TRAILER))
    ensures var read := ReadArchive(out[|Pad(raw)|..]);
      (forall i | 0 <= i < |files| :: Representable(OverlayRecords(files)[i])) ==>
        read.Some? && |read.value| <= |files| && forall i | 0 <= i < |read.value| :: IsOverlaid(read.value[i], files[i])
  {
    hide Emit, ReadArchive, Representable, EmitAll, UpToTrailer, OverlayRecord;
    var trailer := OverlayRecord(File(TRAILER, []));
    var padded := raw + Zeros(Gap(|raw|));
    out := WriteAll(padded, OverlayRecords(files + [File(TRAILER, [])]));
    OverlayOneMore(files, File(TRAILER, []));
    EmitOneMore(OverlayRecords(files), trailer);
    ArchivesAreAligned(OverlayRecords(files) + [trailer]);
    OverlayReads(files, trailer);
    forall i | 0 <= i < |files| ensures IsOverlaid(OverlayRecords(files)[i], files[i]) { OverlaidRecord(files[i]); }
    assert out[|padded|..] == EmitAll(OverlayRecords(files)) + Emit(trailer);
    assert EmitAll(OverlayRecords(files)) + Emit(trailer) + [] == EmitAll(OverlayRecords(files)) + Emit(trailer);
  }

  /** One record's bytes. */
  function Emitted(r: Record): (b: Bytes)
    ensures b == Emit(r)
  {
    var header := MAGIC + HexAll(Fields(r)) + r.name + [0];
    header + Zeros(Gap(|header|)) + (r.data + Zeros(Gap(|r.data|)))
  }

  lemma OverlayReads(files: seq<File>, trailer: Record)
    requires trailer == OverlayRecord(File(TRAILER, []))
    ensures var records := OverlayRecords(files); var read := ReadArchive(EmitAll(records) + Emit(trailer) + []);
      (forall i | 0 <= i < |files| :: Representable(records[i])) ==>
        && read == Some(UpToTrailer(records))
        && (read == Some(records) <==> forall f | f in files :: f.name != TRAILER)
  {
    hide Emit, ReadArchive, EmitAll, Representable, UpToTrailer;
    var records := OverlayRecords(files);
    TrailerRepresentable(trailer);
    if forall i | 0 <= i < |files| :: Representable(records[i]) {
      ArchiveBack(records, trailer, []);
      assert forall i | 0 <= i < |files| :: files[i] in files && records[i].name == files[i].name;
    }
  }

  lemma TrailerRepresentable(trailer: Record)
    requires trailer.name == TRAILER && trailer.data == []
    requires trailer.ino < WORD && trailer.mode < WORD && trailer.uid < WORD && trailer.gid < WORD
    requires trailer.deviceMajor < WORD && trailer.deviceMinor < WORD
    ensures Representable(trailer)
  {}

  // ---------- The export of a root filesystem ----------

  /** What the file system says of a file, and the mode and contents of its extracted copy. */
  datatype Meta = Meta(mode: nat, uid: nat, gid: nat, extracted: nat, data: Bytes)

  type Tree = map<Bytes, Meta>

  /** Names in the order of their bytes. */
  predicate Before(a: Bytes, b: Bytes) { Precedes(a, b, ByteBelow) }

  predicate ByteBelow(x: Byte, y: Byte) { x < y }

  /** The names of a tree, sorted. */
  ghost predicate Sorted(names: seq<Bytes>, tree: Tree) {
    && (forall i, j | 0 <= i < j < |names| :: Before(names[i], names[j]))
    && (forall n :: n in names <==> n in tree)
  }

  const SLASH: Byte := 47

  /** The root directory, "." */
  const ROOT: Bytes := [46]

  const DEV: Bytes := [100, 101, 118]

  const CONSOLE: Bytes := [100, 101, 118, 47, 99, 111, 110, 115, 111, 108, 101]

  const NULL_DEVICE: Bytes := [100, 101, 118, 47, 110, 117, 108, 108]

  predicate Supported(m: Meta) {
    TypeOf(m.mode) == REGULAR || TypeOf(m.mode) == SYMLINK || TypeOf(m.mode) == DIRECTORY
  }

  /** The extracted copy has the type that the file system says. */
  predicate Matches(m: Meta) { TypeOf(m.extracted) == TypeOf(m.mode) }

  /** A directory has no contents. */
  function ContentOf(m: Meta): Bytes { if TypeOf(m.mode) == DIRECTORY then [] else m.data }

  function TreeRecords(names: seq<Bytes>, tree: Tree): (r: seq<Record>)
    requires forall n | n in names :: n in tree
    ensures |r| == |names|
    ensures forall i | 0 <= i < |names| ::
      r[i] == Record(i + 1, tree[names[i]].mode, tree[names[i]].uid, tree[names[i]].gid, names[i],
                     ContentOf(tree[names[i]]), 0, 0)
  {
    seq(|names|, i requires 0 <= i < |names| =>
      Record(i + 1, tree[names[i]].mode, tree[names[i]].uid, tree[names[i]].gid, names[i], ContentOf(tree[names[i]]), 0, 0))
  }

  /** The device nodes, and their directory when the tree has none. */
  function DeviceRecords(count: nat, hasDev: bool): seq<Record> {
    (if hasDev then [] else [Record(count + 1, DIRECTORY + 0x1ED, 0, 0, DEV, [], 0, 0)])
    + [Record(count + 2, CHARACTER_DEVICE + 0x180, 0, 0, CONSOLE, [], 5, 1),
       Record(count + 3, CHARACTER_DEVICE + 0x180, 0, 0, NULL_DEVICE, [], 1, 3)]
  }

  function AllRecords(names: seq<Bytes>, tree: Tree): seq<Record>
    requires forall n | n in names :: n in tree
  {
    TreeRecords(names, tree) + DeviceRecords(|names|, DEV in tree)
  }

  const LAST_RECORD := Record(0, 0, 0, 0, TRAILER, [], 0, 0)

  /** Writes the files of the tree, and fails on an extracted copy of another type or a special
      file. */
  method WriteTree(names: seq<Bytes>, tree: Tree) returns (r: Result<Bytes, string>)
    requires forall n | n in names :: n in tree
    ensures r.Ok? <==> forall n | n in names :: Matches(tree[n]) && Supported(tree[n])
    ensures r.Ok? ==> r.value == EmitAll(TreeRecords(names, tree))
  {
    hide Emit, EmitAll, Matches, Supported, ContentOf;
    ghost var records := TreeRecords(names, tree);
    var out: Bytes := [];
    NothingEmitted();
    for i := 0 to |names|
      invariant forall k | 0 <= k < i :: Matches(tree[names[k]]) && Supported(tree[names[k]])
      invariant out == EmitAll(records[..i])
    {
      var name := names[i];
      var m := tree[name];
      if !Matches(m) { return Err("extracted type mismatch"); }
      if !Supported(m) { return Err("unsupported rootfs special file"); }
      assert records[..i + 1] == records[..i] + [records[i]];
      EmitOneMore(records[..i], records[i]);
      out := out + Emitted(Record(i + 1, m.mode, m.uid, m.gid, name, ContentOf(m), 0, 0));
    }
    assert records[..|names|] == records;
    r := Ok(out);
  }

  lemma NothingEmitted()
    ensures EmitAll([]) == []
  {}

  /** Writes the tree, the device nodes and the trailer; fails on an extracted copy of another type,
      on a special file, or when the tree already has one of the devices. */
  method ExportRootfs(names: seq<Bytes>, tree: Tree) returns (r: Result<Bytes, string>)
    requires Sorted(names, tree)
    ensures r.Ok? <==>
              && (forall n | n in names :: Matches(tree[n]) && Supported(tree[n]))
              && CONSOLE !in tree && NULL_DEVICE !in tree
    ensures r.Ok? ==> r.value == EmitAll(AllRecords(names, tree)) + Emit(LAST_RECORD)
  {
    hide Emit, EmitAll, Matches, Supported, ContentOf, Precedes, TreeRecords;
    var files := WriteTree(names, tree);
    if files.Err? { return files; }
    ghost var written := TreeRecords(names, tree);
    var out := files.value;
    if DEV !in tree {
      var dev := Record(|names| + 1, DIRECTORY + 0x1ED, 0, 0, DEV, [], 0, 0);
      EmitOneMore(written, dev);
      out := out + Emitted(dev);
      written := written + [dev];
    }
    if CONSOLE in tree { return Err("unexpected device in disk rootfs"); }
    var console := Record(|names| + 2, CHARACTER_DEVICE + 0x180, 0, 0, CONSOLE, [], 5, 1);
    EmitOneMore(written, console);
    out := out + Emitted(console);
    written := written + [console];
    if NULL_DEVICE in tree { return Err("unexpected device in disk rootfs"); }
    var nullDevice := Record(|names| + 3, CHARACTER_DEVICE + 0x180, 0, 0, NULL_DEVICE, [], 1, 3);
    EmitOneMore(written, nullDevice);
    out := out + Emitted(nullDevice);
    written := written + [nullDevice];
    assert written == AllRecords(names, tree);
    r := Ok(out + Emitted(LAST_RECORD));
  }

  // ---------- What the export promises ----------

  /** Reading the exported archive gives back the records up to the first with the name of the
      trailer: every one of them if and only if the tree has no file of that name. */
  lemma ExportReadsBack(names: seq<Bytes>, tree: Tree)
    requires Sorted(names, tree) && |names| + 3 < WORD
    requires forall i | 0 <= i < |names| :: Representable(TreeRecords(names, tree)[i])
    ensures var all := AllRecords(names, tree); var read := ReadArchive(EmitAll(all) + Emit(LAST_RECORD));
      read == Some(UpToTrailer(all)) && (read == Some(all) <==> TRAILER !in tree)
  {
    hide Emit, EmitAll, ReadArchive, UpToTrailer, Precedes;
    var all := AllRecords(names, tree);
    DevicesRepresentable(|names|, DEV in tree);
    forall i | 0 <= i < |all| ensures Representable(all[i]) && (all[i].name == TRAILER ==> TRAILER in tree) {
      if i < |names| { assert names[i] in tree; }
    }
    TrailerRepresentable(LAST_RECORD);
    ArchiveBack(all, LAST_RECORD, []);
    assert EmitAll(all) + Emit(LAST_RECORD) + [] == EmitAll(all) + Emit(LAST_RECORD);
    if TRAILER in tree {
      var i :| 0 <= i < |names| && names[i] == TRAILER;
      assert all[i].name == TRAILER;
    }
  }

  /** What the file system says of each file is what its record says, a directory alone being without
      content; after them come the two devices, and before these their directory if the tree has none. */
  lemma ExportedFiles(names: seq<Bytes>, tree: Tree)
    requires Sorted(names, tree)
    ensures var all := AllRecords(names, tree); var n := |names|;
      && (forall i | 0 <= i < n ::
            && all[i].name == names[i] && all[i].ino == i + 1
            && all[i].mode == tree[names[i]].mode && all[i].uid == tree[names[i]].uid && all[i].gid == tree[names[i]].gid
            && all[i].data == (if all[i].mode / 0x1000 % 16 == 4 then [] else tree[names[i]].data)
            && all[i].deviceMajor == 0 && all[i].deviceMinor == 0)
      && all[n..] == (if [100, 101, 118] in tree then [] else [Record(n + 1, 0x41ED, 0, 0, [100, 101, 118], [], 0, 0)])
                     + [Record(n + 2, 0x2180, 0, 0, [100, 101, 118, 47, 99, 111, 110, 115, 111, 108, 101], [], 5, 1),
                        Record(n + 3, 0x2180, 0, 0, [100, 101, 118, 47, 110, 117, 108, 108], [], 1, 3)]
  {}

  /** The names of a tree with a file "TRAILER!!!" at its top. */
  const HIDING_NAMES: seq<Bytes> := [ROOT, TRAILER]

  function HidingTree(): Tree {
    map[ROOT := Meta(DIRECTORY + 0x1ED, 0, 0, DIRECTORY, []), TRAILER := Meta(REGULAR, 0, 0, REGULAR, [])]
  }

  lemma HidingTreeIsTree()
    ensures Sorted(HIDING_NAMES, HidingTree()) && Closed(HidingTree())
    ensures forall n | n in HIDING_NAMES :: Matches(HidingTree()[n]) && Supported(HidingTree()[n])
  {
    assert HIDING_NAMES[0] == ROOT && HIDING_NAMES[1] == TRAILER;
    assert Before(ROOT, TRAILER);
  }

  lemma HidingRecords()
    requires Sorted(HIDING_NAMES, HidingTree())
    ensures var all := AllRecords(HIDING_NAMES, HidingTree());
      |all| == 5 && all[0].name == ROOT && all[1].name == TRAILER && Representable(all[0]) && Representable(all[1])
  {}

  /** The file hides itself and the device nodes: only the root directory is read back. */
  lemma TrailerFileHidesDevices()
    ensures Sorted(HIDING_NAMES, HidingTree()) && CONSOLE !in HidingTree() && NULL_DEVICE !in HidingTree()
    ensures forall n | n in HIDING_NAMES :: Matches(HidingTree()[n]) && Supported(HidingTree()[n])
    ensures var all := AllRecords(HIDING_NAMES, HidingTree());
      |all| == 5 && ReadArchive(EmitAll(all) + Emit(LAST_RECORD)) == Some(all[..1])
  {
    hide Emit, EmitAll, ReadArchive, Sorted, Representable, Matches, Supported;
    var all := AllRecords(HIDING_NAMES, HidingTree());
    HidingTreeIsTree();
    HidingRecords();
    ExportReadsBack(HIDING_NAMES, HidingTree());
    assert UpToTrailer(all) == all[..1];
  }

  lemma DevicesRepresentable(count: nat, hasDev: bool)
    requires count + 3 < WORD
    ensures forall r | r in DeviceRecords(count, hasDev) :: Representable(r) && r.name != TRAILER
  {}

  /** Inode numbers of all records but the trailer are nonzero and distinct. */
  lemma InodesDistinct(names: seq<Bytes>, tree: Tree, i: nat, j: nat)
    requires Sorted(names, tree) && i < j < |AllRecords(names, tree)|
    ensures 0 < AllRecords(names, tree)[i].ino < AllRecords(names, tree)[j].ino
  {}

  /** In the sorted order a name comes after every name that it extends. */
  lemma PrefixFirst(names: seq<Bytes>, i: nat, j: nat, rest: Bytes)
    requires i < |names| && j < |names| && rest != [] && names[j] == names[i] + rest
    requires forall a, b | 0 <= a < b < |names| :: Before(names[a], names[b])
    ensures i < j
  {
    hide Precedes;
    PrefixIsNotAfter(names[i], rest, ByteBelow);
  }

  /** A record beneath another: everything but the root itself is beneath the root, and otherwise
      the path says. */
  predicate Beneath(name: Bytes, directory: Bytes) {
    if directory == ROOT then name != ROOT
    else |name| > |directory| + 1 && name[..|directory|] == directory && name[|directory|] == SLASH
  }

  /** Whatever lies beneath something, that something is in the tree too. */
  ghost predicate Closed(tree: Tree) { forall n, d | n in tree && Beneath(n, d) :: d in tree }

  /** In the archive of a closed tree every directory but the root comes before everything beneath it. */
  lemma PathsFirst(names: seq<Bytes>, tree: Tree, i: nat, j: nat)
    requires Sorted(names, tree) && Closed(tree) && CONSOLE !in tree && NULL_DEVICE !in tree
    requires var all := AllRecords(names, tree);
      i < |all| && j < |all| && all[i].name != ROOT && Beneath(all[j].name, all[i].name)
    ensures i < j
  {
    hide Precedes;
    var all := AllRecords(names, tree);
    var d, n := all[i].name, all[j].name;
    assert n == d + n[|d|..];
    if i < |names| && j < |names| {
      PrefixFirst(names, i, j, n[|d|..]);
    } else if i >= |names| {
      DevicesOutsideTree(|names|, tree, all[i]);
      if j >= |names| {
        DeviceOrder(|names|, DEV in tree, i - |names|, j - |names|);
      }
    }
  }

  /** A name that is sorted before the root: it begins with a byte below the full stop. */
  predicate Low(name: Bytes) { name == [] || name[0] < 46 }

  lemma RootOrder(name: Bytes)
    requires name != ROOT
    ensures Before(ROOT, name) <==> !Low(name)
  {
    if name != [] {
      assert name == [name[0]] + name[1..] && ROOT[1..] == [];
      assert Precedes([], name[1..], ByteBelow) <==> name[1..] != [];
    }
  }

  /** The root comes before a record exactly when its name is not low. */
  lemma RootBefore(names: seq<Bytes>, tree: Tree, i: nat, j: nat)
    requires Sorted(names, tree)
    requires var all := AllRecords(names, tree); i < |all| && j < |all| && all[i].name == ROOT && all[j].name != ROOT
    ensures i < |names| && (i < j <==> !Low(AllRecords(names, tree)[j].name))
  {
    hide Precedes, Low;
    var all := AllRecords(names, tree);
    if i >= |names| {
      LateIsHigh(names, tree, i);
    } else if j >= |names| {
      LateIsHigh(names, tree, j);
    } else {
      RootOrder(names[j]);
      PrefixIsNotAfter(ROOT, [], ByteBelow);
      if j < i { PrecedesIsOneWay(names[j], names[i], ByteBelow); }
    }
  }

  lemma DevicesAreHigh(count: nat, hasDev: bool)
    ensures forall r | r in DeviceRecords(count, hasDev) :: r.name != ROOT && !Low(r.name)
  {}

  lemma LateIsHigh(names: seq<Bytes>, tree: Tree, i: nat)
    requires forall n | n in names :: n in tree
    requires |names| <= i < |AllRecords(names, tree)|
    ensures AllRecords(names, tree)[i].name != ROOT && !Low(AllRecords(names, tree)[i].name)
  {
    hide Low;
    DevicesAreHigh(|names|, DEV in tree);
    assert AllRecords(names, tree)[i] in DeviceRecords(|names|, DEV in tree);
  }

  /** In the archive of a closed tree all directories come before everything beneath them if and only
      if no name in the tree begins with a byte below the full stop, the name of the root. */
  lemma DirectoriesFirst(names: seq<Bytes>, tree: Tree)
    requires Sorted(names, tree) && Closed(tree) && CONSOLE !in tree && NULL_DEVICE !in tree
    ensures var all := AllRecords(names, tree);
      (forall i: nat, j: nat | i < |all| && j < |all| && Beneath(all[j].name, all[i].name) :: i < j)
      <==> forall n | n in tree :: !Low(n)
  {
    hide Precedes, Low;
    var all := AllRecords(names, tree);
    forall i: nat, j: nat | i < |all| && j < |all| && Beneath(all[j].name, all[i].name)
      ensures i < j <==> all[i].name != ROOT || !Low(all[j].name)
    {
      if all[i].name == ROOT { RootBefore(names, tree, i, j); } else { PathsFirst(names, tree, i, j); }
    }
    forall n | n in tree && Low(n)
      ensures exists i: nat, j: nat :: i < |all| && j < |all| && Beneath(all[j].name, all[i].name) && !(i < j)
    {
      RootIsNotLow();
      assert Beneath(n, ROOT) && ROOT in names && n in names;
      var i: nat :| i < |names| && names[i] == ROOT;
      var j: nat :| j < |names| && names[j] == n;
      assert Beneath(all[j].name, all[i].name);
    }
    forall j | 0 <= j < |all| && Low(all[j].name) ensures all[j].name in tree {
      if j >= |names| { LateIsHigh(names, tree, j); }
    }
  }

  lemma RootIsNotLow()
    ensures !Low(ROOT)
  {}

  /** So a tree with a file "+" is written with that file before the root directory. */
  lemma PlusBeforeRoot()
    ensures var names: seq<Bytes> := [[43], ROOT];
      var tree: Tree := map[[43] := Meta(REGULAR, 0, 0, REGULAR, []), ROOT := Meta(DIRECTORY + 0x1ED, 0, 0, DIRECTORY, [])];
      && Sorted(names, tree) && Closed(tree) && CONSOLE !in tree && NULL_DEVICE !in tree
      && Beneath(AllRecords(names, tree)[0].name, AllRecords(names, tree)[1].name)
  {
    var names: seq<Bytes> := [[43], ROOT];
    assert names[0] == [43] && names[1] == ROOT;
    RootOrder([43]);
    assert Before([43], ROOT);
  }

  lemma DevicesOutsideTree(count: nat, tree: Tree, r: Record)
    requires CONSOLE !in tree && NULL_DEVICE !in tree && r in DeviceRecords(count, DEV in tree)
    ensures r.name !in tree
  {}

  lemma DeviceOrder(count: nat, hasDev: bool, i: nat, j: nat)
    requires var all := DeviceRecords(count, hasDev); i < |all| && j < |all| && Beneath(all[j].name, all[i].name)
    ensures i < j
  {}
}
