/** The store-only ZIP writer and its reader (PKWARE APPNOTE sections 4.3.7, 4.3.12 and 4.3.16). */
module Zip {
  import opened Optional
  import opened Utf8
  import Crc32

  // ---------------------------------------------------------------------------------------
  // Little-endian numbers
  // ---------------------------------------------------------------------------------------

  function U16At(s: seq<byte>, i: nat): (v: nat)
    requires i + 2 <= |s|
    ensures v < 0x1_0000
  {
    s[i] as int + 0x100 * s[i + 1] as int
  }

  function U32At(s: seq<byte>, i: nat): (v: nat)
    requires i + 4 <= |s|
    ensures v < 0x1_0000_0000
  {
    s[i] as int + 0x100 * s[i + 1] as int + 0x1_0000 * s[i + 2] as int + 0x100_0000 * s[i + 3] as int
  }

  /** `t` holds the bytes of `s` at offset `p`. */
  predicate Holds(t: seq<byte>, p: nat, s: seq<byte>) {
    p + |s| <= |t| && t[p..p + |s|] == s
  }

  lemma U16Moves(t: seq<byte>, p: nat, s: seq<byte>, i: nat)
    requires Holds(t, p, s) && i + 2 <= |s|
    ensures U16At(t, p + i) == U16At(s, i)
  {
    assert t[p + i] == t[p..p + |s|][i] && t[p + i + 1] == t[p..p + |s|][i + 1];
  }

  lemma U32Moves(t: seq<byte>, p: nat, s: seq<byte>, i: nat)
    requires Holds(t, p, s) && i + 4 <= |s|
    ensures U32At(t, p + i) == U32At(s, i)
  {
    var u := t[p..p + |s|];
    assert t[p + i] == u[i] && t[p + i + 1] == u[i + 1] && t[p + i + 2] == u[i + 2] && t[p + i + 3] == u[i + 3];
  }

  lemma HoldsPart(t: seq<byte>, p: nat, s: seq<byte>, i: nat, part: seq<byte>)
    requires Holds(t, p, s) && Holds(s, i, part)
    ensures Holds(t, p + i, part)
  {
    forall k | 0 <= k < |part| ensures t[p + i..p + i + |part|][k] == part[k] {
      assert t[p..p + |s|][i + k] == s[i + k];
      assert s[i..i + |part|][k] == part[k];
    }
  }

  // ---------------------------------------------------------------------------------------
  // Entries
  // ---------------------------------------------------------------------------------------

  datatype Data = Text(text: string) | Raw(bytes: seq<byte>)

  datatype Entry = Entry(name: string, data: Data)

  /** A file as it is stored. */
  datatype File = File(name: string, data: seq<byte>) {
    function NameBytes(): seq<byte> {
      Encode(name)
    }

    function LocalSize(): nat {
      30 + |NameBytes()| + |data|
    }

    function CentralSize(): nat {
      46 + |NameBytes()|
    }
  }

  function DataBytes(d: Data): seq<byte> {
    match d
    case Text(t) => Encode(t)
    case Raw(b) => b
  }

  predicate BadName(name: string) {
    name == "" || '\\' in name
  }

  /** The position of `name` among the files, or -1. */
  function Find(files: seq<File>, name: string): (k: int)
    ensures -1 <= k < |files|
    ensures k >= 0 ==> files[k].name == name
    ensures k == -1 ==> forall i :: 0 <= i < |files| ==> files[i].name != name
  {
    if files == [] then -1
    else if files[|files| - 1].name == name then |files| - 1
    else Find(files[..|files| - 1], name)
  }

  /** Setting a name that is present replaces its data and keeps its place; a new name goes last. */
  function Put(files: seq<File>, f: File): seq<File> {
    var k := Find(files, f.name);
    if k >= 0 then files[k := f] else files + [f]
  }

  /** The entries without duplicates. */
  function Cleaned(entries: seq<Entry>): seq<File> {
    if entries == [] then []
    else
      var e := entries[|entries| - 1];
      Put(Cleaned(entries[..|entries| - 1]), File(e.name, DataBytes(e.data)))
  }

  /** The last entry with this name, or -1. */
  function LastWith(entries: seq<Entry>, name: string): (k: int)
    ensures -1 <= k < |entries|
    ensures k >= 0 ==> entries[k].name == name
    ensures forall i :: k < i < |entries| ==> entries[i].name != name
  {
    if entries == [] then -1
    else if entries[|entries| - 1].name == name then |entries| - 1
    else LastWith(entries[..|entries| - 1], name)
  }

  /** The first entry with this name, or the number of entries. */
  function FirstWith(entries: seq<Entry>, name: string): (k: nat)
    ensures k <= |entries|
    ensures k < |entries| ==> entries[k].name == name
    ensures forall i :: 0 <= i < k ==> entries[i].name != name
  {
    if entries == [] then 0
    else
      var k := FirstWith(entries[..|entries| - 1], name);
      if k < |entries| - 1 || entries[|entries| - 1].name == name then k else |entries|
  }

  ghost predicate DistinctNames(files: seq<File>) {
    forall i, j :: 0 <= i < j < |files| ==> files[i].name != files[j].name
  }

  lemma FirstWithSnoc(entries: seq<Entry>, name: string)
    requires entries != []
    ensures var init := entries[..|entries| - 1];
            FirstWith(entries, name) ==
            if FirstWith(init, name) < |init| then FirstWith(init, name)
            else if entries[|entries| - 1].name == name then |init| else |entries|
  {
  }

  ghost predicate ByFirstUse(entries: seq<Entry>, files: seq<File>) {
    forall i, j :: 0 <= i < j < |files| ==> FirstWith(entries, files[i].name) < FirstWith(entries, files[j].name)
  }

  /** The same names occur, each with the data given last. */
  ghost predicate SameNamesLastData(entries: seq<Entry>, files: seq<File>) {
    && DistinctNames(files)
    && (forall name: string :: Find(files, name) >= 0 <==> LastWith(entries, name) >= 0)
    && (forall name: string :: LastWith(entries, name) >= 0 && Find(files, name) >= 0 ==>
          files[Find(files, name)].data == DataBytes(entries[LastWith(entries, name)].data))
  }

  lemma {:induction false} CleanedHasLastData(entries: seq<Entry>)
    ensures SameNamesLastData(entries, Cleaned(entries))
  {
    if entries != [] {
      var init, last := entries[..|entries| - 1], entries[|entries| - 1];
      CleanedHasLastData(init);
      PutFinds(Cleaned(init), File(last.name, DataBytes(last.data)));
      forall name: string ensures LastWith(entries, name) == if last.name == name then |init| else LastWith(init, name) {
      }
    }
  }

  lemma {:induction false} CleanedKeepsFirstPlace(entries: seq<Entry>)
    ensures ByFirstUse(entries, Cleaned(entries))
  {
    if entries != [] {
      var init := entries[..|entries| - 1];
      CleanedKeepsFirstPlace(init);
      CleanedHasLastData(init);
      var before, files := Cleaned(init), Cleaned(entries);
      forall i, j | 0 <= i < j < |files| ensures FirstWith(entries, files[i].name) < FirstWith(entries, files[j].name) {
        FirstWithSnoc(entries, files[i].name);
        FirstWithSnoc(entries, files[j].name);
        PresentFirst(init, before, i);
        PresentFirst(init, before, j);
      }
    }
  }

  /** The files have the names of the entries, once each, in the order in which the names first
      occur, and each with the data given last. */
  lemma CleanedIsLastDataFirstPlace(entries: seq<Entry>)
    ensures SameNamesLastData(entries, Cleaned(entries)) && ByFirstUse(entries, Cleaned(entries))
  {
    CleanedHasLastData(entries);
    CleanedKeepsFirstPlace(entries);
  }

  lemma PresentFirst(entries: seq<Entry>, files: seq<File>, i: nat)
    requires forall name: string :: Find(files, name) >= 0 <==> LastWith(entries, name) >= 0
    ensures i < |files| ==> FirstWith(entries, files[i].name) < |entries|
  {
    if i < |files| {
      var name := files[i].name;
      assert Find(files, name) >= 0;
      assert LastWith(entries, name) >= 0;
    }
  }

  lemma PutFinds(files: seq<File>, f: File)
    requires DistinctNames(files)
    ensures DistinctNames(Put(files, f))
    ensures forall name: string :: Find(Put(files, f), name) >= 0 <==> name == f.name || Find(files, name) >= 0
    ensures Put(files, f)[Find(Put(files, f), f.name)] == f
    ensures forall name: string :: name != f.name && Find(files, name) >= 0 ==>
              Put(files, f)[Find(Put(files, f), name)] == files[Find(files, name)]
  {
    var new_ := Put(files, f);
    forall name: string | name != f.name && Find(files, name) >= 0
      ensures Find(new_, name) >= 0 && new_[Find(new_, name)] == files[Find(files, name)]
    {
      var k := Find(files, name);
      assert new_[k] == files[k];
    }
    var k := Find(files, f.name);
    if k >= 0 {
      assert new_[k] == f;
    } else {
      assert new_[|files|] == f;
    }
    forall name: string | Find(new_, name) >= 0 && name != f.name ensures Find(files, name) >= 0 {
      var j := Find(new_, name);
      assert files[j].name == name;
    }
  }

  // ---------------------------------------------------------------------------------------
  // The archive format
  // ---------------------------------------------------------------------------------------

  const LOCAL_HEADER_SIZE := 30
  const CENTRAL_HEADER_SIZE := 46
  const EOCD_SIZE := 22
  const LOCAL_SIGNATURE := 0x04034b50
  const CENTRAL_SIGNATURE := 0x02014b50
  const EOCD_SIGNATURE := 0x06054b50
  const UTF8_FLAG := 0x800
  const STORE_METHOD := 0

  /** The modification time and date in the format of the headers. */
  datatype Stamp = Stamp(time: nat, date: nat)

  function CrcOf(data: seq<byte>): (v: nat) {
    Crc32.Crc(data) as int
  }

  /** The fields that local and central headers share, from the version needed to extract on. */
  ghost predicate CommonAt(z: seq<byte>, p: nat, f: File, stamp: Stamp) {
    && p + 24 <= |z|
    && U16At(z, p) == 20
    && U16At(z, p + 2) == UTF8_FLAG
    && U16At(z, p + 4) == STORE_METHOD
    && U16At(z, p + 6) == stamp.time % 0x1_0000
    && U16At(z, p + 8) == stamp.date % 0x1_0000
    && U32At(z, p + 10) == CrcOf(f.data) % 0x1_0000_0000
    && U32At(z, p + 14) == |f.data| % 0x1_0000_0000
    && U32At(z, p + 18) == |f.data| % 0x1_0000_0000
    && U16At(z, p + 22) == |f.NameBytes()| % 0x1_0000
  }

  /** A local header, the name and the data lie at offset `p`. */
  ghost predicate LocalAt(z: seq<byte>, p: nat, f: File, stamp: Stamp) {
    && p + f.LocalSize() <= |z|
    && U32At(z, p) == LOCAL_SIGNATURE
    && CommonAt(z, p + 4, f, stamp)
    && U16At(z, p + 28) == 0 // no extra field
    && Holds(z, p + 30, f.NameBytes())
    && Holds(z, p + 30 + |f.NameBytes()|, f.data)
  }

  /** A central directory header and the name lie at offset `p`. */
  ghost predicate CentralAt(z: seq<byte>, p: nat, f: File, stamp: Stamp, offset: nat) {
    && p + f.CentralSize() <= |z|
    && U32At(z, p) == CENTRAL_SIGNATURE
    && U16At(z, p + 4) == 20
    && CommonAt(z, p + 6, f, stamp)
    && U32At(z, p + 30) == 0 // no extra field, no comment
    && U32At(z, p + 34) == 0 // disk number and internal attributes
    && U32At(z, p + 38) == 0 // external attributes
    && U32At(z, p + 42) == offset % 0x1_0000 // the writer keeps the low 16 bits only
    && Holds(z, p + 46, f.NameBytes())
  }

  ghost predicate EocdAt(z: seq<byte>, p: nat, count: nat, centralSize: nat, centralOffset: nat) {
    && p + EOCD_SIZE <= |z|
    && U32At(z, p) == EOCD_SIGNATURE
    && U32At(z, p + 4) == 0
    && U16At(z, p + 8) == count % 0x1_0000
    && U16At(z, p + 10) == count % 0x1_0000
    && U32At(z, p + 12) == centralSize % 0x1_0000_0000
    && U32At(z, p + 16) == centralOffset % 0x1_0000_0000
    && U16At(z, p + 20) == 0
  }

  /** Where the local header of file `k` starts. */
  function LocalOffset(files: seq<File>, k: nat): nat
    requires k <= |files|
  {
    if k == 0 then 0 else LocalOffset(files, k - 1) + files[k - 1].LocalSize()
  }

  /** Where the central header of file `k` starts, counted from the start of the directory. */
  function CentralOffset(files: seq<File>, k: nat): nat
    requires k <= |files|
  {
    if k == 0 then 0 else CentralOffset(files, k - 1) + files[k - 1].CentralSize()
  }

  /** `z` is the archive of `files`: all local parts, the central directory, the end record. */
  ghost predicate IsArchive(z: seq<byte>, files: seq<File>, stamp: Stamp) {
    var n := |files|;
    var base := LocalOffset(files, n);
    && |z| == base + CentralOffset(files, n) + EOCD_SIZE
    && (forall k: nat :: k < n ==> LocalAt(z, LocalOffset(files, k), files[k], stamp))
    && (forall k: nat :: k < n ==> CentralAt(z, base + CentralOffset(files, k), files[k], stamp, LocalOffset(files, k)))
    && EocdAt(z, base + CentralOffset(files, n), n, CentralOffset(files, n), base)
  }

  /** Two headers with the name, and the data, of every file. */
  function PackedSize(files: seq<File>): nat {
    if files == [] then 0
    else
      var f := files[|files| - 1];
      PackedSize(files[..|files| - 1]) + 30 + |f.NameBytes()| + |f.data| + 46 + |f.NameBytes()|
  }

  lemma {:induction false} OffsetsAddUp(files: seq<File>, k: nat)
    requires k <= |files|
    ensures LocalOffset(files, k) + CentralOffset(files, k) == PackedSize(files[..k])
  {
    if k > 0 {
      OffsetsAddUp(files, k - 1);
      assert files[..k][..k - 1] == files[..k - 1];
    }
  }

  /** An archive holds no bytes but its headers, names, data and end record. */
  lemma ArchiveIsPacked(z: seq<byte>, files: seq<File>, stamp: Stamp)
    requires IsArchive(z, files, stamp)
    ensures |z| == PackedSize(files) + 22
  {
    hide LocalAt, CentralAt, EocdAt;
    OffsetsAddUp(files, |files|);
    assert files[..|files|] == files;
  }

  // ---------------------------------------------------------------------------------------
  // The writer
  // ---------------------------------------------------------------------------------------

  /** Everything outside `from` to `to` is as before. */
  ghost predicate FieldsKept(a: seq<byte>, b: seq<byte>, from: nat, to: nat) {
    && |a| == |b|
    && (forall i: nat {:trigger U16At(a, i)} :: i + 2 <= |a| && (i + 2 <= from || to <= i) ==> U16At(a, i) == U16At(b, i))
    && (forall i: nat {:trigger U32At(a, i)} :: i + 4 <= |a| && (i + 4 <= from || to <= i) ==> U32At(a, i) == U32At(b, i))
    && (forall i: nat, s: seq<byte> {:trigger Holds(a, i, s)} :: i + |s| <= |a| && (i + |s| <= from || to <= i)
          ==> Holds(a, i, s) == Holds(b, i, s))
  }

  lemma FieldsAreKept(a: seq<byte>, b: seq<byte>, from: nat, to: nat)
    requires |a| == |b| && forall i :: 0 <= i < |a| && !(from <= i < to) ==> a[i] == b[i]
    ensures FieldsKept(a, b, from, to)
  {
    forall i: nat, s: seq<byte> | i + |s| <= |a| && (i + |s| <= from || to <= i) ensures Holds(a, i, s) == Holds(b, i, s) {
      assert a[i..i + |s|] == b[i..i + |s|];
    }
  }

  method WriteU16(target: array<byte>, offset: nat, value: nat)
    requires offset + 2 <= target.Length
    modifies target
    ensures FieldsKept(target[..], old(target[..]), offset, offset + 2)
    ensures U16At(target[..], offset) == value % 0x1_0000
  {
    var v := value % 0x1_0000;
    target[offset] := (v % 0x100) as byte;
    target[offset + 1] := (v / 0x100) as byte;
    FieldsAreKept(target[..], old(target[..]), offset, offset + 2);
  }

  method WriteU32(target: array<byte>, offset: nat, value: nat)
    requires offset + 4 <= target.Length
    modifies target
    ensures FieldsKept(target[..], old(target[..]), offset, offset + 4)
    ensures U32At(target[..], offset) == value % 0x1_0000_0000
  {
    var v := value % 0x1_0000_0000;
    target[offset] := (v % 0x100) as byte;
    target[offset + 1] := (v / 0x100 % 0x100) as byte;
    target[offset + 2] := (v / 0x1_0000 % 0x100) as byte;
    target[offset + 3] := (v / 0x100_0000) as byte;
    assert v / 0x1_0000 == v / 0x100 / 0x100 && v / 0x100_0000 == v / 0x1_0000 / 0x100;
    FieldsAreKept(target[..], old(target[..]), offset, offset + 4);
  }

  method SetBytes(target: array<byte>, offset: nat, bytes: seq<byte>)
    requires offset + |bytes| <= target.Length
    modifies target
    ensures FieldsKept(target[..], old(target[..]), offset, offset + |bytes|)
    ensures Holds(target[..], offset, bytes)
  {
    forall i | 0 <= i < |bytes| {
      target[offset + i] := bytes[i];
    }
    assert target[..][offset..offset + |bytes|] == bytes;
    FieldsAreKept(target[..], old(target[..]), offset, offset + |bytes|);
  }

  lemma LowDigit(low: nat, rest: nat)
    requires low < 0x100
    ensures (low + 0x100 * rest) % 0x100 == low && (low + 0x100 * rest) / 0x100 == rest
  {
  }

  /** The bytes of a field are the digits of its value in base 256, the low one first. */
  lemma LowByteFirst(z: seq<byte>, p: nat)
    ensures p + 2 <= |z| ==> var v := U16At(z, p); v % 0x100 == z[p] as int && v / 0x100 == z[p + 1] as int
    ensures p + 4 <= |z| ==>
              var v := U32At(z, p);
              && v % 0x100 == z[p] as int && v / 0x100 % 0x100 == z[p + 1] as int
              && v / 0x100 / 0x100 % 0x100 == z[p + 2] as int && v / 0x100 / 0x100 / 0x100 == z[p + 3] as int
  {
    if p + 2 <= |z| { LowDigit(z[p] as int, z[p + 1] as int); }
    if p + 4 <= |z| {
      var high := z[p + 2] as int + 0x100 * z[p + 3] as int;
      LowDigit(z[p] as int, z[p + 1] as int + 0x100 * high);
      LowDigit(z[p + 1] as int, high);
      LowDigit(z[p + 2] as int, z[p + 3] as int);
    }
  }

  lemma FieldsKeptTwice(a: seq<byte>, b: seq<byte>, c: seq<byte>, from: nat, mid: nat, to: nat)
    requires FieldsKept(b, a, from, mid) && FieldsKept(c, b, mid, to) && from <= mid <= to
    ensures FieldsKept(c, a, from, to)
  {
  }

  method WriteCommon(target: array<byte>, p: nat, f: File, stamp: Stamp, crc: nat)
    requires p + 24 <= target.Length && crc == CrcOf(f.data)
    modifies target
    ensures FieldsKept(target[..], old(target[..]), p, p + 24)
    ensures CommonAt(target[..], p, f, stamp)
  {
    hide U16At, U32At, Holds, CrcOf;
    WriteU16(target, p, 20);
    WriteU16(target, p + 2, UTF8_FLAG);
    WriteU16(target, p + 4, STORE_METHOD);
    WriteU16(target, p + 6, stamp.time);
    WriteU16(target, p + 8, stamp.date);
    WriteU32(target, p + 10, crc);
    WriteU32(target, p + 14, |f.data|);
    WriteU32(target, p + 18, |f.data|);
    WriteU16(target, p + 22, |f.NameBytes()|);
  }

  method LocalChunk(f: File, stamp: Stamp, crc: nat) returns (local: array<byte>)
    requires crc == CrcOf(f.data)
    ensures fresh(local) && local.Length == f.LocalSize() && LocalAt(local[..], 0, f, stamp)
  {
    hide U16At, U32At, Holds, CrcOf;
    var nameBytes := Encode(f.name);
    local := new byte[LOCAL_HEADER_SIZE + |nameBytes| + |f.data|](i => 0);
    WriteU32(local, 0, LOCAL_SIGNATURE);
    WriteCommon(local, 4, f, stamp, crc);
    WriteU16(local, 28, 0);
    SetBytes(local, LOCAL_HEADER_SIZE, nameBytes);
    SetBytes(local, LOCAL_HEADER_SIZE + |nameBytes|, f.data);
  }

  lemma ZeroFields(z: seq<byte>)
    requires forall i :: 0 <= i < |z| ==> z[i] == 0
    ensures forall i: nat :: i + 2 <= |z| ==> U16At(z, i) == 0
    ensures forall i: nat :: i + 4 <= |z| ==> U32At(z, i) == 0
  {
  }

  lemma LowHalf(z: seq<byte>, i: nat)
    requires i + 4 <= |z|
    ensures U32At(z, i) == U16At(z, i) + 0x1_0000 * U16At(z, i + 2)
  {
  }

  method CentralChunk(f: File, stamp: Stamp, crc: nat, offset: nat) returns (central: array<byte>)
    requires crc == CrcOf(f.data)
    ensures fresh(central) && central.Length == f.CentralSize() && CentralAt(central[..], 0, f, stamp, offset)
  {
    hide U16At, U32At, Holds, CrcOf;
    var nameBytes := Encode(f.name);
    central := new byte[CENTRAL_HEADER_SIZE + |nameBytes|](i => 0);
    ZeroFields(central[..]);
    WriteU32(central, 0, CENTRAL_SIGNATURE);
    WriteU16(central, 4, 20);
    WriteCommon(central, 6, f, stamp, crc);
    WriteU16(central, 42, offset);
    SetBytes(central, CENTRAL_HEADER_SIZE, nameBytes);
    LowHalf(central[..], 42);
  }

  datatype Error =
    | IllegalName(name: string)
    | EocdNotFound
    | BadCentralHeader
    | NotStored(name: string)
    | MalformedName
    | OutOfRange

  datatype Result<T> = Ok(value: T) | Err(error: Error)

  lemma LocalMoves(z: seq<byte>, p: nat, chunk: seq<byte>, f: File, stamp: Stamp)
    requires Holds(z, p, chunk) && LocalAt(chunk, 0, f, stamp)
    ensures LocalAt(z, p, f, stamp)
  {
    hide U16At, U32At, CrcOf;
    U32Moves(z, p, chunk, 0);
    CommonMoves(z, p, chunk, 4, f, stamp);
    U16Moves(z, p, chunk, 28);
    HoldsPart(z, p, chunk, 30, f.NameBytes());
    HoldsPart(z, p, chunk, 30 + |f.NameBytes()|, f.data);
  }

  lemma CommonMoves(z: seq<byte>, p: nat, chunk: seq<byte>, i: nat, f: File, stamp: Stamp)
    requires Holds(z, p, chunk) && CommonAt(chunk, i, f, stamp)
    ensures CommonAt(z, p + i, f, stamp)
  {
    hide U16At, U32At, CrcOf, Holds;
    U16Moves(z, p, chunk, i);
    U16Moves(z, p, chunk, i + 2);
    U16Moves(z, p, chunk, i + 4);
    U16Moves(z, p, chunk, i + 6);
    U16Moves(z, p, chunk, i + 8);
    U32Moves(z, p, chunk, i + 10);
    U32Moves(z, p, chunk, i + 14);
    U32Moves(z, p, chunk, i + 18);
    U16Moves(z, p, chunk, i + 22);
    assert p + i + 24 <= |z| by {
      assert Holds(z, p, chunk);
      HoldsFits(z, p, chunk);
    }
  }

  lemma HoldsFits(z: seq<byte>, p: nat, chunk: seq<byte>)
    requires Holds(z, p, chunk)
    ensures p + |chunk| <= |z|
  {
  }

  lemma CentralMoves(z: seq<byte>, p: nat, chunk: seq<byte>, f: File, stamp: Stamp, offset: nat)
    requires Holds(z, p, chunk) && CentralAt(chunk, 0, f, stamp, offset)
    ensures CentralAt(z, p, f, stamp, offset)
  {
    hide U16At, U32At, CrcOf;
    U32Moves(z, p, chunk, 0);
    U16Moves(z, p, chunk, 4);
    CommonMoves(z, p, chunk, 6, f, stamp);
    U32Moves(z, p, chunk, 30);
    U32Moves(z, p, chunk, 34);
    U32Moves(z, p, chunk, 38);
    U32Moves(z, p, chunk, 42);
    HoldsPart(z, p, chunk, 46, f.NameBytes());
  }

  /** The chunks written for file `k`. */
  ghost predicate ChunkPair(files: seq<File>, k: nat, local: seq<byte>, central: seq<byte>, stamp: Stamp) {
    && k < |files|
    && |local| == files[k].LocalSize() && LocalAt(local, 0, files[k], stamp)
    && |central| == files[k].CentralSize() && CentralAt(central, 0, files[k], stamp, LocalOffset(files, k))
  }

  /** The chunks written for the first `n` files. */
  ghost predicate ChunksFor(files: seq<File>, n: nat, locals: seq<seq<byte>>, centrals: seq<seq<byte>>, stamp: Stamp) {
    && n == |locals| == |centrals| <= |files|
    && forall k: nat :: k < n ==> ChunkPair(files, k, locals[k], centrals[k], stamp)
  }

  lemma OneMoreChunk(files: seq<File>, n: nat, locals: seq<seq<byte>>, centrals: seq<seq<byte>>, stamp: Stamp,
                     local: seq<byte>, central: seq<byte>)
    requires n < |files| && ChunksFor(files, n, locals, centrals, stamp) && ChunkPair(files, n, local, central, stamp)
    ensures ChunksFor(files, n + 1, locals + [local], centrals + [central], stamp)
  {
    hide ChunkPair;
  }

  method MakeChunks(files: seq<File>, stamp: Stamp)
    returns (locals: seq<seq<byte>>, centrals: seq<seq<byte>>, offset: nat)
    ensures ChunksFor(files, |files|, locals, centrals, stamp)
    ensures offset == LocalOffset(files, |files|)
  {
    hide LocalAt, CentralAt, Crc32.IsTable;
    var table := Crc32.FillTable();
    locals, centrals, offset := [], [], 0;
    for i := 0 to |files|
      invariant ChunksFor(files, i, locals, centrals, stamp)
      invariant offset == LocalOffset(files, i)
      invariant Crc32.IsTable(table[..])
    {
      hide ChunksFor;
      var crc := Crc32.ComputeCrc32(table, files[i].data);
      var local := LocalChunk(files[i], stamp, crc as int);
      var central := CentralChunk(files[i], stamp, crc as int, offset);
      OneMoreChunk(files, i, locals, centrals, stamp, local[..], central[..]);
      locals := locals + [local[..]];
      centrals := centrals + [central[..]];
      offset := offset + local.Length;
    }
  }

  /** The first `n` chunks lie one after the other in `z`, starting at `base`. */
  ghost predicate Laid(z: seq<byte>, base: nat, chunks: seq<seq<byte>>, n: nat) {
    n <= |chunks| && forall k: nat {:trigger chunks[k]} :: k < n ==> Holds(z, base + Total(chunks, k), chunks[k])
  }

  function Total(chunks: seq<seq<byte>>, k: nat): nat
    requires k <= |chunks|
  {
    if k == 0 then 0 else Total(chunks, k - 1) + |chunks[k - 1]|
  }

  lemma {:induction false} TotalGrows(chunks: seq<seq<byte>>, j: nat, k: nat)
    requires j < k <= |chunks|
    ensures Total(chunks, j) + |chunks[j]| <= Total(chunks, k)
    decreases k
  {
    if j < k - 1 {
      TotalGrows(chunks, j, k - 1);
    }
  }

  lemma OneMoreLaid(z: seq<byte>, base: nat, chunks: seq<seq<byte>>, n: nat)
    requires Laid(z, base, chunks, n) && n < |chunks| && Holds(z, base + Total(chunks, n), chunks[n])
    ensures Laid(z, base, chunks, n + 1)
  {
    hide Holds;
  }

  lemma NothingChanged(z: seq<byte>, from: nat, to: nat, chunks: seq<seq<byte>>)
    ensures FieldsKept(z, z, from, to) && Laid(z, from, chunks, 0)
  {
  }

  method CopyChunks(out: array<byte>, base: nat, chunks: seq<seq<byte>>)
    requires base + Total(chunks, |chunks|) <= out.Length
    modifies out
    ensures Laid(out[..], base, chunks, |chunks|)
    ensures FieldsKept(out[..], old(out[..]), base, base + Total(chunks, |chunks|))
  {
    hide Holds, FieldsKept, Laid;
    var cursor := base;
    NothingChanged(out[..], base, cursor, chunks);
    for i := 0 to |chunks|
      invariant cursor == base + Total(chunks, i) <= out.Length
      invariant Laid(out[..], base, chunks, i)
      invariant FieldsKept(out[..], old(out[..]), base, cursor)
    {
      TotalGrowsTo(chunks, i);
      ghost var before := out[..];
      SetBytes(out, cursor, chunks[i]);
      FieldsKeptTwice(old(out[..]), before, out[..], base, cursor, cursor + |chunks[i]|);
      LaidKept(before, out[..], base, chunks, i, cursor, cursor + |chunks[i]|);
      OneMoreLaid(out[..], base, chunks, i);
      cursor := cursor + |chunks[i]|;
    }
  }

  lemma TotalGrowsTo(chunks: seq<seq<byte>>, i: nat)
    requires i < |chunks|
    ensures Total(chunks, i + 1) == Total(chunks, i) + |chunks[i]| <= Total(chunks, |chunks|)
  {
    TotalGrows(chunks, i, |chunks|);
  }

  lemma LaidKept(a: seq<byte>, b: seq<byte>, base: nat, chunks: seq<seq<byte>>, n: nat, from: nat, to: nat)
    requires Laid(a, base, chunks, n) && FieldsKept(b, a, from, to) && base + Total(chunks, n) <= from
    ensures Laid(b, base, chunks, n)
  {
    hide U16At, U32At;
    forall k: nat | k < n ensures Holds(b, base + Total(chunks, k), chunks[k]) {
      TotalGrows(chunks, k, n);
    }
  }

  method MakeEocd(count: nat, centralSize: nat, offset: nat) returns (eocd: array<byte>)
    ensures fresh(eocd) && eocd.Length == EOCD_SIZE && EocdAt(eocd[..], 0, count, centralSize, offset)
  {
    hide U16At, U32At, Holds;
    eocd := new byte[EOCD_SIZE](i => 0);
    ZeroFields(eocd[..]);
    WriteU32(eocd, 0, EOCD_SIGNATURE);
    WriteU16(eocd, 8, count);
    WriteU16(eocd, 10, count);
    WriteU32(eocd, 12, centralSize);
    WriteU32(eocd, 16, offset);
  }

  lemma EocdMoves(z: seq<byte>, p: nat, chunk: seq<byte>, count: nat, centralSize: nat, offset: nat)
    requires Holds(z, p, chunk) && EocdAt(chunk, 0, count, centralSize, offset)
    ensures EocdAt(z, p, count, centralSize, offset)
  {
    hide U16At, U32At;
    U32Moves(z, p, chunk, 0);
    U32Moves(z, p, chunk, 4);
    U16Moves(z, p, chunk, 8);
    U16Moves(z, p, chunk, 10);
    U32Moves(z, p, chunk, 12);
    U32Moves(z, p, chunk, 16);
    U16Moves(z, p, chunk, 20);
  }

  lemma {:induction false} TotalsAreOffsets(files: seq<File>, locals: seq<seq<byte>>, centrals: seq<seq<byte>>,
                                           stamp: Stamp, k: nat)
    requires ChunksFor(files, |files|, locals, centrals, stamp) && k <= |files|
    ensures Total(locals, k) == LocalOffset(files, k) && Total(centrals, k) == CentralOffset(files, k)
    decreases k
  {
    if k > 0 {
      TotalsAreOffsets(files, locals, centrals, stamp, k - 1);
      ChunkSizes(files, locals, centrals, stamp, k - 1);
    }
  }

  lemma ChunkSizes(files: seq<File>, locals: seq<seq<byte>>, centrals: seq<seq<byte>>, stamp: Stamp, k: nat)
    requires ChunksFor(files, |files|, locals, centrals, stamp) && k < |files|
    ensures |locals[k]| == files[k].LocalSize() && |centrals[k]| == files[k].CentralSize()
  {
    hide LocalAt, CentralAt;
    assert ChunkPair(files, k, locals[k], centrals[k], stamp);
  }

  lemma LaidHolds(z: seq<byte>, base: nat, chunks: seq<seq<byte>>, k: nat)
    requires k < |chunks| && Laid(z, base, chunks, |chunks|)
    ensures Holds(z, base + Total(chunks, k), chunks[k])
  {
  }

  lemma LaidLocal(z: seq<byte>, files: seq<File>, stamp: Stamp, locals: seq<seq<byte>>, centrals: seq<seq<byte>>, k: nat)
    requires ChunksFor(files, |files|, locals, centrals, stamp) && k < |files|
    requires Laid(z, 0, locals, |locals|)
    ensures LocalAt(z, LocalOffset(files, k), files[k], stamp)
  {
    hide LocalAt, CentralAt, Holds, Laid, LocalOffset, CentralOffset, Total;
    TotalsAreOffsets(files, locals, centrals, stamp, k);
    assert ChunkPair(files, k, locals[k], centrals[k], stamp);
    LaidHolds(z, 0, locals, k);
    LocalMoves(z, LocalOffset(files, k), locals[k], files[k], stamp);
  }

  lemma LaidCentral(z: seq<byte>, files: seq<File>, stamp: Stamp, locals: seq<seq<byte>>, centrals: seq<seq<byte>>,
                    base: nat, k: nat)
    requires ChunksFor(files, |files|, locals, centrals, stamp) && k < |files|
    requires Laid(z, base, centrals, |centrals|)
    ensures CentralAt(z, base + CentralOffset(files, k), files[k], stamp, LocalOffset(files, k))
  {
    hide LocalAt, CentralAt, Holds, Laid, LocalOffset, CentralOffset, Total;
    TotalsAreOffsets(files, locals, centrals, stamp, k);
    assert ChunkPair(files, k, locals[k], centrals[k], stamp);
    LaidHolds(z, base, centrals, k);
    CentralMoves(z, base + CentralOffset(files, k), centrals[k], files[k], stamp, LocalOffset(files, k));
  }

  lemma LaidIsArchive(z: seq<byte>, files: seq<File>, stamp: Stamp, locals: seq<seq<byte>>, centrals: seq<seq<byte>>,
                      eocd: seq<byte>)
    requires ChunksFor(files, |files|, locals, centrals, stamp)
    requires Laid(z, 0, locals, |locals|) && Laid(z, LocalOffset(files, |files|), centrals, |centrals|)
    requires EocdAt(eocd, 0, |files|, CentralOffset(files, |files|), LocalOffset(files, |files|))
    requires Holds(z, LocalOffset(files, |files|) + CentralOffset(files, |files|), eocd)
    requires |z| == LocalOffset(files, |files|) + CentralOffset(files, |files|) + EOCD_SIZE
    ensures IsArchive(z, files, stamp)
  {
    hide LocalAt, CentralAt, EocdAt, Holds, ChunksFor, Laid, LocalOffset, CentralOffset;
    var base := LocalOffset(files, |files|);
    forall k: nat | k < |files| ensures LocalAt(z, LocalOffset(files, k), files[k], stamp) {
      LaidLocal(z, files, stamp, locals, centrals, k);
    }
    forall k: nat | k < |files|
      ensures CentralAt(z, base + CentralOffset(files, k), files[k], stamp, LocalOffset(files, k))
    {
      LaidCentral(z, files, stamp, locals, centrals, base, k);
    }
    EocdMoves(z, base + CentralOffset(files, |files|), eocd, |files|, CentralOffset(files, |files|), base);
  }

  /** Lays the chunks and the end record out in one buffer. */
  method Assemble(files: seq<File>, stamp: Stamp) returns (z: seq<byte>)
    ensures IsArchive(z, files, stamp)
  {
    hide LocalAt, CentralAt, EocdAt, Holds, U16At, U32At, ChunkPair, Laid, FieldsKept;
    var locals, centrals, offset := MakeChunks(files, stamp);
    TotalsAreOffsets(files, locals, centrals, stamp, |files|);
    var centralSize := 0;
    for i := 0 to |centrals|
      invariant centralSize == Total(centrals, i)
    {
      centralSize := centralSize + |centrals[i]|;
    }
    var out := new byte[offset + centralSize + EOCD_SIZE](i => 0);
    CopyChunks(out, 0, locals);
    ghost var s0 := out[..];
    CopyChunks(out, offset, centrals);
    ghost var s1 := out[..];
    LaidKept(s0, s1, 0, locals, |locals|, offset, offset + centralSize);
    var eocd := MakeEocd(|files|, centralSize, offset);
    SetBytes(out, offset + centralSize, eocd[..]);
    z := out[..];
    LaidKept(s1, z, 0, locals, |locals|, offset + centralSize, |z|);
    LaidKept(s1, z, offset, centrals, |centrals|, offset + centralSize, |z|);
    LaidIsArchive(z, files, stamp, locals, centrals, eocd[..]);
  }

  /** The archive of the entries; an empty name or one with a backslash is refused. */
  method CreateZip(entries: seq<Entry>, stamp: Stamp) returns (r: Result<seq<byte>>)
    ensures r.Ok? <==> forall e :: e in entries ==> e.name != "" && '\\' !in e.name
    ensures r.Ok? ==> IsArchive(r.value, Cleaned(entries), stamp)
    ensures r.Err? ==> exists i :: 0 <= i < |entries| && (entries[i].name == "" || '\\' in entries[i].name)
                                   && r.error == IllegalName(entries[i].name)
                                   && forall j :: 0 <= j < i ==> entries[j].name != "" && '\\' !in entries[j].name
  {
    hide IsArchive;
    var files: seq<File> := [];
    for i := 0 to |entries|
      invariant files == Cleaned(entries[..i])
      invariant forall j :: 0 <= j < i ==> !BadName(entries[j].name)
    {
      var e := entries[i];
      if BadName(e.name) {
        return Err(IllegalName(e.name));
      }
      assert entries[..i + 1][..i] == entries[..i];
      files := Put(files, File(e.name, DataBytes(e.data)));
    }
    assert entries[..|entries|] == entries;
    var z := Assemble(files, stamp);
    r := Ok(z);
  }

  // ---------------------------------------------------------------------------------------
  // The reader
  // ---------------------------------------------------------------------------------------

  /** The text decoder drops a leading byte order mark. */
  function StripBom(s: string): string {
    if s != "" && s[0] == '\U{FEFF}' then s[1..] else s
  }

  function DecodeName(b: seq<byte>): Option<string> {
    var d := Decode(b);
    if d.Some? then Some(StripBom(d.value)) else None
  }

  function Min(a: nat, b: nat): nat {
    if a <= b then a else b
  }

  /** A view of part of the archive; bounds past the end are cut off. */
  function Subarray(z: seq<byte>, from: nat, to: nat): seq<byte> {
    var lo, hi := Min(from, |z|), Min(to, |z|);
    if lo <= hi then z[lo..hi] else []
  }

  /** The last offset, at most `i`, that holds the signature of the end record, or -1. */
  function FindEocd(z: seq<byte>, i: int): (r: int)
    requires i + 4 <= |z|
    ensures -1 <= r && (r >= 0 ==> r <= i && U32At(z, r) == EOCD_SIGNATURE)
    decreases i
  {
    if i < 0 then -1 else if U32At(z, i) == EOCD_SIGNATURE then i else FindEocd(z, i - 1)
  }

  /** What is read for the central header at `cursor`, and where the next one starts. */
  function ReadEntry(z: seq<byte>, cursor: nat): Result<(File, nat)> {
    if cursor + 4 > |z| then Err(OutOfRange)
    else if U32At(z, cursor) != CENTRAL_SIGNATURE then Err(BadCentralHeader)
    else if cursor + CENTRAL_HEADER_SIZE > |z| then Err(OutOfRange)
    else
      var size, nameLen := U32At(z, cursor + 24), U16At(z, cursor + 28);
      var extraLen, commentLen := U16At(z, cursor + 30), U16At(z, cursor + 32);
      var localOffset := U32At(z, cursor + 42);
      var nameStart := cursor + CENTRAL_HEADER_SIZE;
      var name := DecodeName(Subarray(z, nameStart, nameStart + nameLen));
      if name.None? then Err(MalformedName)
      else if U16At(z, cursor + 10) != STORE_METHOD then Err(NotStored(name.value))
      else if localOffset + LOCAL_HEADER_SIZE > |z| then Err(OutOfRange)
      else Ok((File(name.value, StoredData(z, localOffset, size)), nameStart + nameLen + extraLen + commentLen))
  }

  /** The `size` bytes after the local header at `localOffset`. */
  function StoredData(z: seq<byte>, localOffset: nat, size: nat): seq<byte>
    requires localOffset + LOCAL_HEADER_SIZE <= |z|
  {
    var start := localOffset + LOCAL_HEADER_SIZE + U16At(z, localOffset + 26) + U16At(z, localOffset + 28);
    Subarray(z, start, start + size)
  }

  function ReadEntries(z: seq<byte>, cursor: nat, count: nat): Result<seq<File>>
    decreases count
  {
    if count == 0 then Ok([])
    else
      var e := ReadEntry(z, cursor);
      if e.Err? then Err(e.error)
      else
        var rest := ReadEntries(z, e.value.1, count - 1);
        if rest.Err? then rest else Ok([e.value.0] + rest.value)
  }

  function ReadZip(z: seq<byte>): Result<seq<File>> {
    var eocd := if |z| >= EOCD_SIZE then FindEocd(z, |z| - EOCD_SIZE) else -1;
    if eocd < 0 then Err(EocdNotFound) else ReadEntries(z, U32At(z, eocd + 16), U16At(z, eocd + 10))
  }

  method ReadZipEntries(z: seq<byte>) returns (r: Result<seq<File>>)
    ensures r == ReadZip(z)
  {
    hide ReadEntry, U16At, U32At;
    var eocd := -1;
    var i := |z| - EOCD_SIZE;
    while i >= 0
      invariant eocd == -1
      invariant i >= 0 ==> FindEocd(z, |z| - EOCD_SIZE) == FindEocd(z, i)
      invariant i < 0 && |z| >= EOCD_SIZE ==> FindEocd(z, |z| - EOCD_SIZE) == -1
      decreases i
    {
      if U32At(z, i) == EOCD_SIGNATURE {
        eocd := i;
        break;
      }
      i := i - 1;
    }
    if eocd < 0 {
      return Err(EocdNotFound);
    }
    var count := U16At(z, eocd + 10);
    var cursor := U32At(z, eocd + 16);
    ghost var whole := ReadEntries(z, cursor, count);
    var files: seq<File> := [];
    assert whole.Ok? ==> [] + whole.value == whole.value;
    for k := 0 to count
      invariant whole == Prefixed(files, ReadEntries(z, cursor, count - k))
    {
      var e := ReadEntry(z, cursor);
      if e.Err? {
        return Err(e.error);
      }
      PrefixedOnce(files, e.value.0, ReadEntries(z, e.value.1, count - k - 1));
      files := files + [e.value.0];
      cursor := e.value.1;
    }
    assert files + [] == files;
    r := Ok(files);
  }

  function Prefixed(files: seq<File>, r: Result<seq<File>>): Result<seq<File>> {
    if r.Err? then r else Ok(files + r.value)
  }

  lemma PrefixedOnce(files: seq<File>, f: File, rest: Result<seq<File>>)
    ensures Prefixed(files, if rest.Err? then rest else Ok([f] + rest.value)) == Prefixed(files + [f], rest)
  {
    if rest.Ok? {
      assert files + ([f] + rest.value) == (files + [f]) + rest.value;
    }
  }

  // ---------------------------------------------------------------------------------------
  // Round trip
  // ---------------------------------------------------------------------------------------

  /** The limits of the format: counts and name lengths in 16 bits, sizes and the directory offset
      in 32 bits. */
  ghost predicate WithinFormat(files: seq<File>) {
    && |files| < 0x1_0000
    && LocalOffset(files, |files|) < 0x1_0000_0000
    && forall k :: 0 <= k < |files| ==> |files[k].NameBytes()| < 0x1_0000 && |files[k].data| < 0x1_0000_0000
  }

  /** The limit of this writer: every local header starts in the first 64 KiB. */
  ghost predicate OffsetsInReach(files: seq<File>) {
    forall k: nat :: k < |files| ==> LocalOffset(files, k) < 0x1_0000
  }

  function AsRead(f: File): File {
    File(StripBom(f.name), f.data)
  }

  lemma HeldSubarray(z: seq<byte>, p: nat, s: seq<byte>)
    requires Holds(z, p, s)
    ensures Subarray(z, p, p + |s|) == s
  {
  }

  lemma NameDecodes(f: File)
    ensures DecodeName(f.NameBytes()) == Some(StripBom(f.name))
  {
    DecodeEncode(f.name);
  }

  lemma CentralFields(z: seq<byte>, p: nat, f: File, stamp: Stamp, offset: nat)
    requires CentralAt(z, p, f, stamp, offset)
    requires |f.NameBytes()| < 0x1_0000 && |f.data| < 0x1_0000_0000
    ensures p + 46 <= |z| && U32At(z, p) == CENTRAL_SIGNATURE && U16At(z, p + 10) == STORE_METHOD
    ensures U32At(z, p + 24) == |f.data| && U16At(z, p + 28) == |f.NameBytes()|
    ensures U16At(z, p + 30) == 0 && U16At(z, p + 32) == 0 && U32At(z, p + 42) == offset % 0x1_0000
    ensures Holds(z, p + 46, f.NameBytes())
  {
    hide U16At, U32At, Holds;
    assert U16At(z, p + 6 + 4) == STORE_METHOD && U32At(z, p + 6 + 18) == |f.data|;
    assert U16At(z, p + 6 + 22) == |f.NameBytes()|;
    LowHalf(z, p + 30);
  }

  /** The central header of a file, when sizes are within the format, is read as the file name and
      the bytes found at the low 16 bits of its local offset. */
  lemma ReadCentral(z: seq<byte>, p: nat, f: File, stamp: Stamp, offset: nat)
    requires CentralAt(z, p, f, stamp, offset)
    requires |f.NameBytes()| < 0x1_0000 && |f.data| < 0x1_0000_0000
    requires offset % 0x1_0000 + LOCAL_HEADER_SIZE <= |z|
    ensures ReadEntry(z, p) == Ok((File(StripBom(f.name), StoredData(z, offset % 0x1_0000, |f.data|)), p + f.CentralSize()))
  {
    hide DecodeName, StoredData, Subarray, CentralAt, U16At, U32At, Holds;
    CentralFields(z, p, f, stamp, offset);
    NameDecodes(f);
    HeldSubarray(z, p + 46, f.NameBytes());
  }

  lemma LocalFields(z: seq<byte>, p: nat, f: File, stamp: Stamp)
    requires LocalAt(z, p, f, stamp) && |f.NameBytes()| < 0x1_0000
    ensures p + 30 <= |z| && U16At(z, p + 26) == |f.NameBytes()| && U16At(z, p + 28) == 0
    ensures Holds(z, p + 30 + |f.NameBytes()|, f.data)
  {
    hide U16At, U32At, Holds;
    assert U16At(z, p + 4 + 22) == |f.NameBytes()|;
  }

  lemma StoredAtLocal(z: seq<byte>, p: nat, f: File, stamp: Stamp)
    requires LocalAt(z, p, f, stamp) && |f.NameBytes()| < 0x1_0000
    ensures StoredData(z, p, |f.data|) == f.data
  {
    LocalFields(z, p, f, stamp);
    hide U32At, U16At, LocalAt, Subarray, Holds;
    HeldSubarray(z, p + 30 + |f.NameBytes()|, f.data);
  }

  lemma PartsOfArchive(z: seq<byte>, files: seq<File>, stamp: Stamp, k: nat)
    requires IsArchive(z, files, stamp) && k < |files|
    ensures LocalAt(z, LocalOffset(files, k), files[k], stamp)
    ensures CentralAt(z, LocalOffset(files, |files|) + CentralOffset(files, k), files[k], stamp, LocalOffset(files, k))
  {
    hide LocalAt, CentralAt, EocdAt, LocalOffset, CentralOffset;
  }

  lemma HeaderInArchive(z: seq<byte>, p: nat, f: File, stamp: Stamp)
    requires LocalAt(z, p, f, stamp)
    ensures p % 0x1_0000 + LOCAL_HEADER_SIZE <= |z|
  {
    hide CommonAt, U16At, U32At, Holds;
  }

  /** What a reader takes for the data of a file whose header it looks for at `at`. */
  function DataFoundAt(z: seq<byte>, at: nat, size: nat): seq<byte> {
    if at + LOCAL_HEADER_SIZE <= |z| then StoredData(z, at, size) else []
  }

  /** The file `k` of an archive as it is read: only the low half of its local offset was written. */
  function Found(z: seq<byte>, files: seq<File>, k: nat): File
    requires k < |files|
  {
    File(StripBom(files[k].name), DataFoundAt(z, LocalOffset(files, k) % 0x1_0000, |files[k].data|))
  }

  function FoundFrom(z: seq<byte>, files: seq<File>, k: nat): (r: seq<File>)
    requires k <= |files|
    ensures |r| == |files| - k
  {
    seq(|files| - k, i requires 0 <= i < |files| - k => Found(z, files, k + i))
  }

  lemma FoundStep(z: seq<byte>, files: seq<File>, k: nat)
    requires k < |files|
    ensures FoundFrom(z, files, k) == [Found(z, files, k)] + FoundFrom(z, files, k + 1)
  {
    hide Found;
  }

  lemma {:induction false} ReadFrom(z: seq<byte>, files: seq<File>, stamp: Stamp, k: nat)
    requires IsArchive(z, files, stamp) && WithinFormat(files) && k <= |files|
    ensures ReadEntries(z, LocalOffset(files, |files|) + CentralOffset(files, k), |files| - k)
         == Ok(FoundFrom(z, files, k))
    decreases |files| - k
  {
    hide ReadEntry, LocalAt, CentralAt, EocdAt, IsArchive, FoundFrom, LocalOffset, StoredData;
    if k < |files| {
      var p := LocalOffset(files, |files|) + CentralOffset(files, k);
      PartsOfArchive(z, files, stamp, k);
      HeaderInArchive(z, LocalOffset(files, k), files[k], stamp);
      ReadCentral(z, p, files[k], stamp, LocalOffset(files, k));
      ReadFrom(z, files, stamp, k + 1);
      FoundStep(z, files, k);
    }
  }

  lemma FoundInReach(z: seq<byte>, files: seq<File>, stamp: Stamp, k: nat)
    requires IsArchive(z, files, stamp) && WithinFormat(files) && k < |files| && LocalOffset(files, k) < 0x1_0000
    ensures Found(z, files, k) == AsRead(files[k])
  {
    hide LocalAt, CentralAt, IsArchive, LocalOffset, StoredData;
    PartsOfArchive(z, files, stamp, k);
    HeaderInArchive(z, LocalOffset(files, k), files[k], stamp);
    StoredAtLocal(z, LocalOffset(files, k), files[k], stamp);
  }

  lemma ReadsDirectory(z: seq<byte>, files: seq<File>, stamp: Stamp)
    requires IsArchive(z, files, stamp) && WithinFormat(files)
    ensures ReadZip(z) == ReadEntries(z, LocalOffset(files, |files|), |files|)
  {
    hide LocalAt, CentralAt, ReadEntries, LocalOffset, CentralOffset, U16At, U32At;
    var p := |z| - EOCD_SIZE;
    assert EocdAt(z, p, |files|, CentralOffset(files, |files|), LocalOffset(files, |files|));
    assert FindEocd(z, p) == p;
  }

  /** Main result: reading an archive within the format gives one file for every stored one, in order,
      with its name less a leading byte order mark and the data found at the low half of its offset. */
  lemma ReadsWhatIsFound(z: seq<byte>, files: seq<File>, stamp: Stamp)
    requires IsArchive(z, files, stamp) && WithinFormat(files)
    ensures ReadZip(z) == Ok(FoundFrom(z, files, 0))
    ensures forall k: nat :: k < |files| && LocalOffset(files, k) < 0x1_0000 ==> Found(z, files, k) == AsRead(files[k])
  {
    hide IsArchive, ReadEntries, Found, LocalOffset, FoundFrom, ReadZip;
    ReadsDirectory(z, files, stamp);
    assert CentralOffset(files, 0) == 0;
    ReadFrom(z, files, stamp, 0);
    forall k: nat | k < |files| && LocalOffset(files, k) < 0x1_0000 ensures Found(z, files, k) == AsRead(files[k]) {
      FoundInReach(z, files, stamp, k);
    }
  }

  /** No name starts with a byte order mark. */
  ghost predicate PlainNames(files: seq<File>) {
    forall k :: 0 <= k < |files| ==> StripBom(files[k].name) == files[k].name
  }

  /** What is found for every file out of reach happens to be its data. */
  ghost predicate LuckyOutOfReach(z: seq<byte>, files: seq<File>) {
    forall k: nat :: k < |files| && LocalOffset(files, k) >= 0x1_0000 ==> Found(z, files, k).data == files[k].data
  }

  ghost predicate Returned(z: seq<byte>, files: seq<File>, k: nat) {
    k < |files| ==> Found(z, files, k) == files[k]
  }

  lemma AllReturned(z: seq<byte>, files: seq<File>)
    ensures FoundFrom(z, files, 0) == files <==> forall k: nat :: Returned(z, files, k)
  {
    hide Found;
    var got := FoundFrom(z, files, 0);
    if got == files {
      forall k: nat ensures Returned(z, files, k) {
        assert k < |files| ==> got[k] == Found(z, files, k);
      }
    }
    if forall k: nat :: Returned(z, files, k) {
      forall k: nat | k < |files| ensures got[k] == files[k] {
        assert Returned(z, files, k);
      }
    }
  }

  lemma ReturnedIff(z: seq<byte>, files: seq<File>)
    requires forall k: nat :: k < |files| && LocalOffset(files, k) < 0x1_0000 ==> Found(z, files, k) == AsRead(files[k])
    ensures (forall k: nat :: Returned(z, files, k)) <==> PlainNames(files) && LuckyOutOfReach(z, files)
  {
    hide LocalOffset, DataFoundAt, StripBom;
    if forall k: nat :: Returned(z, files, k) {
      forall k: nat | k < |files| ensures StripBom(files[k].name) == files[k].name && Found(z, files, k).data == files[k].data {
        assert Returned(z, files, k);
      }
    }
    if PlainNames(files) && LuckyOutOfReach(z, files) {
      forall k: nat ensures Returned(z, files, k) {
        if k < |files| { assert StripBom(files[k].name) == files[k].name; }
      }
    }
  }

  /** So the round trip gives back its files, byte for byte, exactly when no name starts with a byte
      order mark and every file out of reach happens to be what is found in its place; when all are in
      reach, the names alone decide. */
  lemma RoundTrip(z: seq<byte>, files: seq<File>, stamp: Stamp)
    requires IsArchive(z, files, stamp) && WithinFormat(files)
    ensures ReadZip(z) == Ok(files) <==> PlainNames(files) && LuckyOutOfReach(z, files)
    ensures OffsetsInReach(files) ==> (ReadZip(z) == Ok(files) <==> PlainNames(files))
  {
    hide *;
    ReadsWhatIsFound(z, files, stamp);
    AllReturned(z, files);
    ReturnedIff(z, files);
    if OffsetsInReach(files) { InReachNeedsNoLuck(z, files); }
  }

  lemma InReachNeedsNoLuck(z: seq<byte>, files: seq<File>)
    requires OffsetsInReach(files)
    ensures LuckyOutOfReach(z, files)
  {
  }

  /** Out of reach the round trip fails: a second file whose local header starts at 65536 exactly is
      read as the start of the first file, so it comes back right only if it is that start. */
  lemma OffsetsOutOfReachWrap(z: seq<byte>, a: File, b: File, stamp: Stamp)
    requires IsArchive(z, [a, b], stamp) && WithinFormat([a, b])
    requires a.LocalSize() == 0x1_0000 && |b.data| <= |a.data|
    ensures ReadZip(z) == Ok([AsRead(a), File(StripBom(b.name), a.data[..|b.data|])])
    ensures ReadZip(z) == Ok([AsRead(a), AsRead(b)]) <==> b.data == a.data[..|b.data|]
  {
    hide *;
    var files := [a, b];
    assert |files| == 2 && files[0] == a && files[1] == b;
    TwoFiles(a, b);
    PartsOfArchive(z, files, stamp, 0);
    ReadsWhatIsFound(z, files, stamp);
    FoundSecond(z, files, a, b, stamp);
    FoundStep(z, files, 0);
    FoundStep(z, files, 1);
    assert FoundFrom(z, files, 0) == [AsRead(a), File(StripBom(b.name), a.data[..|b.data|])];
    assert AsRead(b) == File(StripBom(b.name), a.data[..|b.data|]) <==> b.data == a.data[..|b.data|] by {
      AsReadIs(b);
    }
  }

  lemma AsReadIs(f: File)
    ensures AsRead(f) == File(StripBom(f.name), f.data)
  {
  }

  lemma FoundSecond(z: seq<byte>, files: seq<File>, a: File, b: File, stamp: Stamp)
    requires files == [a, b] && LocalAt(z, 0, a, stamp) && LocalOffset(files, 1) == 0x1_0000
    requires |a.NameBytes()| < 0x1_0000 && |b.data| <= |a.data|
    ensures Found(z, files, 1) == File(StripBom(b.name), a.data[..|b.data|])
  {
    hide LocalAt, StoredData, LocalOffset;
    HeaderInArchive(z, 0, a, stamp);
    StoredPrefix(z, a, stamp, |b.data|);
  }

  lemma TwoFiles(a: File, b: File)
    requires WithinFormat([a, b])
    ensures LocalOffset([a, b], 0) == CentralOffset([a, b], 0) == 0
    ensures LocalOffset([a, b], 1) == a.LocalSize() && CentralOffset([a, b], 1) == a.CentralSize()
    ensures |a.NameBytes()| < 0x1_0000 && |a.data| < 0x1_0000_0000
    ensures |b.NameBytes()| < 0x1_0000 && |b.data| < 0x1_0000_0000
  {
    var files := [a, b];
    assert |files[0].NameBytes()| < 0x1_0000 && |files[1].NameBytes()| < 0x1_0000;
    assert |files[0].data| < 0x1_0000_0000 && |files[1].data| < 0x1_0000_0000;
    assert LocalOffset(files, 0) == 0 && CentralOffset(files, 0) == 0;
  }

  lemma HeldPrefix(z: seq<byte>, p: nat, s: seq<byte>, n: nat)
    requires Holds(z, p, s) && n <= |s|
    ensures Holds(z, p, s[..n])
  {
    assert z[p..p + n] == z[p..p + |s|][..n];
  }

  lemma StoredPrefix(z: seq<byte>, f: File, stamp: Stamp, n: nat)
    requires LocalAt(z, 0, f, stamp) && |f.NameBytes()| < 0x1_0000 && n <= |f.data|
    ensures StoredData(z, 0, n) == f.data[..n]
  {
    LocalFields(z, 0, f, stamp);
    hide U32At, U16At, LocalAt, Subarray, Holds;
    HeldPrefix(z, 30 + |f.NameBytes()|, f.data, n);
    HeldSubarray(z, 30 + |f.NameBytes()|, f.data[..n]);
  }
}
