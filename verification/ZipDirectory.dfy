/** Reading any bytes as an archive: which are accepted, as what, and why the others are refused. */
module ZipDirectory {
  import opened Optional
  import opened Utf8
  import opened Zip

  /** The fields of the central header at `c` that the reader looks at. */
  function NameField(z: seq<byte>, c: nat): seq<byte>
    requires c + 46 <= |z|
  {
    Subarray(z, c + 46, c + 46 + U16At(z, c + 28))
  }

  function After(z: seq<byte>, c: nat): nat
    requires c + 46 <= |z|
  {
    c + 46 + U16At(z, c + 28) + U16At(z, c + 30) + U16At(z, c + 32)
  }

  /** A whole header of a stored file with a readable name, whose local header is in the archive too. */
  predicate Readable(z: seq<byte>, c: nat) {
    && c + 46 <= |z| && U32At(z, c) == 0x02014b50
    && Decode(NameField(z, c)).Some?
    && U16At(z, c + 10) == 0
    && U32At(z, c + 42) + 30 <= |z|
  }

  /** The file of a readable header: its name, and as many of the bytes behind its local header, the name there
      and the extra field there, as it says and as there are. */
  predicate Describes(z: seq<byte>, c: nat, f: File)
    requires Readable(z, c)
  {
    var local := U32At(z, c + 42);
    var start := local + 30 + U16At(z, local + 26) + U16At(z, local + 28);
    var name := Decode(NameField(z, c)).value;
    && f.name == (if name != "" && name[0] == '\U{FEFF}' then name[1..] else name) // a leading byte order mark is dropped
    && |f.data| == (if start + U32At(z, c + 24) <= |z| then U32At(z, c + 24) else if start <= |z| then |z| - start else 0)
    && forall i :: 0 <= i < |f.data| ==> start + i < |z| && f.data[i] == z[start + i]
  }

  /** The bytes at `c` start like a whole header. */
  predicate Whole(z: seq<byte>, c: nat) {
    c + 46 <= |z| && U32At(z, c) == 0x02014b50
  }

  /** The reason for refusing the header at `c`; no header has two. */
  predicate Refuses(z: seq<byte>, c: nat, error: Error) {
    match error
    case OutOfRange =>
      || c + 4 > |z|
      || (c + 46 > |z| && U32At(z, c) == 0x02014b50)
      || (Whole(z, c) && Decode(NameField(z, c)).Some? && U16At(z, c + 10) == 0 && U32At(z, c + 42) + 30 > |z|)
    case BadCentralHeader => c + 4 <= |z| && U32At(z, c) != 0x02014b50
    case MalformedName => Whole(z, c) && Decode(NameField(z, c)).None?
    case NotStored(name) => Whole(z, c) && U16At(z, c + 10) != 0 && Some(name) == DecodeName(NameField(z, c))
    case _ => false
  }

  /** A header is read exactly when it is readable. */
  lemma EntryIsReadIff(z: seq<byte>, c: nat)
    ensures ReadEntry(z, c).Ok? <==> Readable(z, c)
    ensures ReadEntry(z, c).Ok? ==> Describes(z, c, ReadEntry(z, c).value.0) && ReadEntry(z, c).value.1 == After(z, c)
    ensures ReadEntry(z, c).Err? ==> Refuses(z, c, ReadEntry(z, c).error)
  {
    hide U16At, U32At, Decode;
  }

  /** Where the header number `k` of a directory at `c` starts, each one directly behind the one before. */
  function HeaderAt(z: seq<byte>, c: nat, k: nat): nat {
    if k == 0 then c
    else
      var before := HeaderAt(z, c, k - 1);
      if before + 46 <= |z| then After(z, before) else before
  }

  lemma {:induction false} HeaderAtNext(z: seq<byte>, c: nat, k: nat)
    requires c + 46 <= |z|
    ensures HeaderAt(z, c, k + 1) == HeaderAt(z, After(z, c), k)
  {
    if k > 0 { HeaderAtNext(z, c, k - 1); }
  }

  ghost predicate ReadableBefore(z: seq<byte>, c: nat, n: nat) {
    forall k: nat :: k < n ==> Readable(z, HeaderAt(z, c, k))
  }

  /** The files are those of the headers, in order. */
  ghost predicate Lists(z: seq<byte>, c: nat, files: seq<File>) {
    forall k: nat :: k < |files| ==>
      Readable(z, HeaderAt(z, c, k)) && Describes(z, HeaderAt(z, c, k), files[k])
  }

  /** The first header that is not readable gives the error. */
  ghost predicate RefusesFirst(z: seq<byte>, c: nat, n: nat, error: Error) {
    exists k: nat :: k < n && ReadableBefore(z, c, k) && !Readable(z, HeaderAt(z, c, k)) && Refuses(z, HeaderAt(z, c, k), error)
  }

  lemma Shifted(z: seq<byte>, c: nat)
    requires Readable(z, c)
    ensures HeaderAt(z, c, 0) == c && forall k: nat :: HeaderAt(z, c, k + 1) == HeaderAt(z, After(z, c), k)
  {
    forall k: nat ensures HeaderAt(z, c, k + 1) == HeaderAt(z, After(z, c), k) { HeaderAtNext(z, c, k); }
  }

  lemma ReadableFromNext(z: seq<byte>, c: nat, n: nat)
    requires Readable(z, c) && n > 0
    ensures c + 46 <= |z|
    ensures ReadableBefore(z, c, n) <==> ReadableBefore(z, After(z, c), n - 1)
  {
    Shifted(z, c);
    hide Readable, After, HeaderAt;
    if ReadableBefore(z, After(z, c), n - 1) {
      forall k: nat | k < n ensures Readable(z, HeaderAt(z, c, k)) {
        if k > 0 { assert HeaderAt(z, c, (k - 1) + 1) == HeaderAt(z, After(z, c), k - 1); }
      }
    }
    if ReadableBefore(z, c, n) {
      forall k: nat | k < n - 1 ensures Readable(z, HeaderAt(z, After(z, c), k)) { assert Readable(z, HeaderAt(z, c, k + 1)); }
    }
  }

  lemma ListsFromNext(z: seq<byte>, c: nat, f: File, files: seq<File>)
    requires Readable(z, c) && Describes(z, c, f) && Lists(z, After(z, c), files)
    ensures Lists(z, c, [f] + files)
  {
    Shifted(z, c);
    hide Readable, Describes, After, HeaderAt;
    forall k: nat | k < |[f] + files|
      ensures Readable(z, HeaderAt(z, c, k)) && Describes(z, HeaderAt(z, c, k), ([f] + files)[k])
    {
      if k > 0 { assert HeaderAt(z, c, (k - 1) + 1) == HeaderAt(z, After(z, c), k - 1); }
    }
  }

  lemma RefusesFromNext(z: seq<byte>, c: nat, n: nat, error: Error)
    requires Readable(z, c) && n > 0 && RefusesFirst(z, After(z, c), n - 1, error)
    ensures RefusesFirst(z, c, n, error)
  {
    Shifted(z, c);
    var k: nat :| k < n - 1 && ReadableBefore(z, After(z, c), k) && !Readable(z, HeaderAt(z, After(z, c), k))
                  && Refuses(z, HeaderAt(z, After(z, c), k), error);
    ReadableFromNext(z, c, k + 1);
    hide Readable, Refuses, After, HeaderAt;
    assert HeaderAt(z, c, k + 1) == HeaderAt(z, After(z, c), k);
  }

  ghost predicate DirectoryIsRead(z: seq<byte>, c: nat, n: nat) {
    var r := ReadEntries(z, c, n);
    && (r.Ok? <==> ReadableBefore(z, c, n))
    && (r.Ok? ==> |r.value| == n && Lists(z, c, r.value))
    && (r.Err? ==> RefusesFirst(z, c, n, r.error))
  }

  lemma OneMoreHeader(z: seq<byte>, c: nat, n: nat)
    requires Readable(z, c) && n > 0 && DirectoryIsRead(z, After(z, c), n - 1)
    ensures DirectoryIsRead(z, c, n)
  {
    EntryIsReadIff(z, c);
    ReadableFromNext(z, c, n);
    hide Readable, Describes, Refuses, ReadEntry, Lists, RefusesFirst, ReadableBefore, After;
    var rest := ReadEntries(z, After(z, c), n - 1);
    if rest.Ok? {
      ListsFromNext(z, c, ReadEntry(z, c).value.0, rest.value);
    } else {
      RefusesFromNext(z, c, n, rest.error);
    }
  }

  /** A directory of `n` headers is read exactly when all of them are readable. */
  lemma {:induction false} DirectoryIsReadIff(z: seq<byte>, c: nat, n: nat)
    ensures var r := ReadEntries(z, c, n);
      && (r.Ok? <==> ReadableBefore(z, c, n))
      && (r.Ok? ==> |r.value| == n && Lists(z, c, r.value))
      && (r.Err? ==> RefusesFirst(z, c, n, r.error))
    decreases n
  {
    hide ReadEntry, Refuses, Describes, Lists, RefusesFirst;
    if n > 0 {
      if Readable(z, c) {
        DirectoryIsReadIff(z, After(z, c), n - 1);
        OneMoreHeader(z, c, n);
      } else {
        FirstIsRefused(z, c, n);
      }
    } else {
      NoHeaders(z, c);
    }
  }

  lemma NoHeaders(z: seq<byte>, c: nat)
    ensures DirectoryIsRead(z, c, 0)
  {
  }

  lemma FirstIsRefused(z: seq<byte>, c: nat, n: nat)
    requires !Readable(z, c) && n > 0
    ensures ReadEntries(z, c, n).Err? && !ReadableBefore(z, c, n) && RefusesFirst(z, c, n, ReadEntries(z, c, n).error)
  {
    EntryIsReadIff(z, c);
    hide Readable, Refuses, ReadEntry;
    assert HeaderAt(z, c, 0) == c && ReadableBefore(z, c, 0);
  }

  lemma {:induction false} EndRecordIsLast(z: seq<byte>, i: int)
    requires i + 4 <= |z|
    ensures var r := FindEocd(z, i);
      && (r >= 0 ==> U32At(z, r) == 0x06054b50)
      && forall j: nat :: r < j <= i ==> U32At(z, j) != 0x06054b50
    decreases i
  {
    hide U32At;
    if i >= 0 && U32At(z, i) != 0x06054b50 { EndRecordIsLast(z, i - 1); }
  }

  /** The last place that the signature of an end record with room behind it starts at. */
  ghost predicate EndRecordAt(z: seq<byte>, e: nat) {
    && e + 22 <= |z| && U32At(z, e) == 0x06054b50
    && forall j: nat :: e < j && j + 22 <= |z| ==> U32At(z, j) != 0x06054b50
  }

  ghost predicate HasNoEndRecord(z: seq<byte>) {
    forall j: nat :: j + 22 <= |z| ==> U32At(z, j) != 0x06054b50
  }

  /** Any bytes are read through their last end record: its directory, exactly when all the headers it counts are
      readable. Without an end record, or at the first header that is not readable, they are refused. */
  lemma ReadIffReadable(z: seq<byte>)
    ensures HasNoEndRecord(z) ==> ReadZip(z) == Err(EocdNotFound)
    ensures forall e: nat :: EndRecordAt(z, e) ==>
      var c, n, r := U32At(z, e + 16), U16At(z, e + 10), ReadZip(z);
      && (r.Ok? <==> ReadableBefore(z, c, n))
      && (r.Ok? ==> |r.value| == n && Lists(z, c, r.value))
      && (r.Err? ==> RefusesFirst(z, c, n, r.error))
  {
    hide U32At, U16At, ReadEntries, ReadableBefore, Lists, RefusesFirst, FindEocd;
    if |z| >= 22 {
      EndRecordIsLast(z, |z| - 22);
      var e := FindEocd(z, |z| - 22);
      if e >= 0 { DirectoryIsReadIff(z, U32At(z, e + 16), U16At(z, e + 10)); }
    }
  }
}
