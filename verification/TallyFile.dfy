/** The file backend: a tally table is a four-byte magic number followed by records of
121 bytes, reached through one file cursor per session.

Integers are stored in little-endian order. A readv or writev may move fewer bytes than
asked; the source takes any positive count for success. Retries after EINTR are not
steps of their own here.
*/
module TallyFile {
  import opened Optional

  newtype byte = b: int | 0 <= b < 256

  type bytes = seq<byte>

  datatype QuotaType = AllQuota | UserQuota | GroupQuota | ClassQuota

  const HEADER: nat := 4
  const RECLEN: nat := 121
  const NAMELEN: nat := 81

  /** 0x07644 */
  const TALLY_MAGIC: bytes := [0x44, 0x76, 0, 0]

  function TypeCode(q: QuotaType): bytes {
    match q
    case AllQuota => [10, 0, 0, 0]
    case UserQuota => [20, 0, 0, 0]
    case GroupQuota => [30, 0, 0, 0]
    case ClassQuota => [40, 0, 0, 0]
  }

  // ---------------------------------------------------------------------------
  // The in-memory record and its byte image

  datatype RawTally = RawTally(
    name: bytes, quotaType: bytes,
    bytesIn: bytes, bytesOut: bytes, bytesXfer: bytes,
    filesIn: bytes, filesOut: bytes, filesXfer: bytes)

  predicate Sized(t: RawTally) {
    && |t.name| == NAMELEN && |t.quotaType| == 4
    && |t.bytesIn| == 8 && |t.bytesOut| == 8 && |t.bytesXfer| == 8
    && |t.filesIn| == 4 && |t.filesOut| == 4 && |t.filesXfer| == 4
  }

  type Record = t: RawTally | Sized(t)
    witness RawTally(seq(NAMELEN, _ => 0), [0, 0, 0, 0],
                     seq(8, _ => 0), seq(8, _ => 0), seq(8, _ => 0), [0, 0, 0, 0], [0, 0, 0, 0], [0, 0, 0, 0])

  /** The eight segments writev gathers. */
  function Gather(t: Record): (r: bytes)
    ensures |r| == RECLEN
  {
    t.name + t.quotaType + t.bytesIn + t.bytesOut + t.bytesXfer + t.filesIn + t.filesOut + t.filesXfer
  }

  /** The eight segments readv fills. */
  function Scatter(image: bytes): Record
    requires |image| == RECLEN
  {
    RawTally(image[..81], image[81..85], image[85..93], image[93..101], image[101..109],
             image[109..113], image[113..117], image[117..121])
  }

  /** What a longer image adds behind leaves the segments in front alone. */
  lemma Behind(front: bytes, last: bytes)
    ensures (front + last)[|front|..] == last && (front + last)[..|front|] == front
    ensures forall i, j :: 0 <= i <= j <= |front| ==> (front + last)[i..j] == front[i..j]
  {
  }

  /** Where each field stands in the record: the name in the first 81 bytes, the type in the
  next four, then the bytes uploaded, downloaded and transferred in eight each, and the files
  in four each, in that order. */
  lemma FieldOffsets(t: Record)
    ensures var r := Gather(t);
            && r[..81] == t.name && r[81..85] == t.quotaType
            && r[85..93] == t.bytesIn && r[93..101] == t.bytesOut && r[101..109] == t.bytesXfer
            && r[109..113] == t.filesIn && r[113..117] == t.filesOut && r[117..121] == t.filesXfer
  {
    ScatterGather(t);
    var r := Gather(t);
    assert Scatter(r).name == r[..81] && Scatter(r).quotaType == r[81..85] && Scatter(r).bytesIn == r[85..93];
  }

  lemma ScatterGather(t: Record)
    ensures Scatter(Gather(t)) == t
  {
    var typed := t.name + t.quotaType;
    var bytes := typed + t.bytesIn + t.bytesOut + t.bytesXfer;
    Behind(t.name, t.quotaType);
    Behind(typed, t.bytesIn);
    Behind(typed + t.bytesIn, t.bytesOut);
    Behind(typed + t.bytesIn + t.bytesOut, t.bytesXfer);
    Behind(bytes, t.filesIn);
    Behind(bytes + t.filesIn, t.filesOut);
    Behind(bytes + t.filesIn + t.filesOut, t.filesXfer);
    var g := Gather(t);
    assert g[..81] == t.name && g[81..85] == t.quotaType;
    assert g[85..93] == t.bytesIn && g[93..101] == t.bytesOut && g[101..109] == t.bytesXfer;
    assert g[109..113] == t.filesIn && g[113..117] == t.filesOut && g[117..121] == t.filesXfer;
  }

  lemma GatherScatter(image: bytes)
    requires |image| == RECLEN
    ensures Gather(Scatter(image)) == image
  {
    assert image[..81] + image[81..85] == image[..85];
    assert image[..85] + image[85..93] == image[..93];
    assert image[..93] + image[93..101] == image[..101];
    assert image[..101] + image[101..109] == image[..109];
    assert image[..109] + image[109..113] == image[..113];
    assert image[..113] + image[113..117] == image[..117];
  }

  /** A C string: the bytes before the first zero. */
  function CString(s: bytes): bytes {
    if s == [] || s[0] == 0 then [] else [s[0]] + CString(s[1..])
  }

  /** What the lookup loop asks of a record. */
  predicate Matches(t: Record, name: Option<bytes>, q: QuotaType) {
    && t.quotaType == TypeCode(q)
    && ((name.Some? && name.value == CString(t.name)) || q == AllQuota)
  }

  // ---------------------------------------------------------------------------
  // The table as a sequence of records

  function Count(f: bytes): nat { if |f| < HEADER then 0 else (|f| - HEADER) / RECLEN }

  function Pos(k: nat): nat { HEADER + k * RECLEN }

  predicate WellFormed(f: bytes) {
    |f| >= HEADER && f[..HEADER] == TALLY_MAGIC && (|f| - HEADER) % RECLEN == 0
  }

  function RecordAt(f: bytes, k: nat): Record
    requires k < Count(f)
  {
    Scatter(f[Pos(k)..Pos(k) + RECLEN])
  }

  function Table(f: bytes): seq<Record> {
    seq(Count(f), k requires 0 <= k < Count(f) => RecordAt(f, k))
  }

  /** How many reads a scan of the table makes: one for each whole record and one for a
  torn record at the end. */
  function Reads(f: bytes): nat {
    Count(f) + if |f| > HEADER && (|f| - HEADER) % RECLEN != 0 then 1 else 0
  }

  /** What the k-th read of a scan leaves in memory. A torn record fills the front of the
  structure and leaves the rest as the read before it did. */
  function Seen(f: bytes, k: nat, initial: Record): Record
    requires k < Reads(f)
  {
    if k < Count(f) then RecordAt(f, k)
    else
      var torn := f[Pos(k)..];
      var before := if k == 0 then initial else RecordAt(f, k - 1);
      Scatter(torn + Gather(before)[|torn|..])
  }

  lemma SeenIsRead(f: bytes, k: nat, initial: Record, before: Record, after: Record, n: nat)
    requires k < Reads(f) && n == (if Pos(k) + RECLEN <= |f| then RECLEN else |f| - Pos(k))
    requires k == 0 ==> before == initial
    requires k > 0 ==> before == Seen(f, k - 1, initial)
    requires Pos(k) < |f| && Gather(after) == f[Pos(k)..Pos(k) + n] + Gather(before)[n..]
    ensures after == Seen(f, k, initial)
  {
    ScatterGather(after);
    if k < Count(f) {
      assert f[Pos(k)..Pos(k) + n] + Gather(before)[n..] == f[Pos(k)..Pos(k) + RECLEN];
    } else {
      assert f[Pos(k)..Pos(k) + n] == f[Pos(k)..];
    }
  }

  /** The records a scan goes through. */
  function Scan(f: bytes, initial: Record): seq<Record> {
    seq(Reads(f), k requires 0 <= k < Reads(f) => Seen(f, k, initial))
  }

  ghost predicate AllUpTo(io: nat -> bool, k: nat) { forall j: nat :: j <= k ==> io(j) }

  /** The first k records were read and none of them matches. */
  ghost predicate PassedOver(scan: seq<Record>, name: Option<bytes>, q: QuotaType, io: nat -> bool, k: nat) {
    k <= |scan| && forall j: nat :: j < k ==> io(j) && !Matches(scan[j], name, q)
  }

  lemma PassOver(scan: seq<Record>, name: Option<bytes>, q: QuotaType, io: nat -> bool, k: nat)
    requires PassedOver(scan, name, q, io, k) && k < |scan| && io(k) && !Matches(scan[k], name, q)
    ensures PassedOver(scan, name, q, io, k + 1)
  {
  }

  lemma NothingFound(scan: seq<Record>, name: Option<bytes>, q: QuotaType, io: nat -> bool, k: nat)
    requires PassedOver(scan, name, q, io, k) && (k == |scan| || !io(k))
    ensures !exists j :: 0 <= j < |scan| && Matches(scan[j], name, q) && AllUpTo(io, j)
  {
  }

  /** In a well-formed table a scan sees exactly the records of the table. */
  lemma WellFormedScan(f: bytes, initial: Record)
    requires WellFormed(f)
    ensures Scan(f, initial) == Table(f) && Pos(Reads(f)) == |f|
  {
  }

  /** Overwriting from `pos`; a gap past the end of the file reads as zeros. */
  function Splice(f: bytes, pos: nat, data: bytes): bytes {
    var head := if pos <= |f| then f[..pos] else f + seq(pos - |f|, _ => 0);
    head + data + if pos + |data| <= |f| then f[pos + |data|..] else []
  }

  /** The byte ranges of different records do not meet, so neither do locks on them. */
  lemma RecordsAreDisjoint(j: nat, k: nat)
    requires j != k
    ensures Pos(j) + RECLEN <= Pos(k) || Pos(k) + RECLEN <= Pos(j)
  {
    if j < k {
      assert (k - j) * RECLEN >= RECLEN;
    } else {
      assert (j - k) * RECLEN >= RECLEN;
    }
  }

  lemma WriteReplacesOneRecord(f: bytes, k: nat, t: Record)
    requires WellFormed(f) && k < Count(f)
    ensures var f' := Splice(f, Pos(k), Gather(t));
            WellFormed(f') && Table(f') == Table(f)[k := t]
  {
    var f' := Splice(f, Pos(k), Gather(t));
    assert |f| == Pos(Count(f)) && |f'| == |f|;
    assert f'[..HEADER] == f[..HEADER];
    forall j | 0 <= j < Count(f)
      ensures RecordAt(f', j) == Table(f)[k := t][j]
    {
      if j == k {
        assert f'[Pos(k)..Pos(k) + RECLEN] == Gather(t);
        ScatterGather(t);
      } else {
        assert f'[Pos(j)..Pos(j) + RECLEN] == f[Pos(j)..Pos(j) + RECLEN];
      }
    }
  }

  /** The first n bytes of one record over another. */
  function Mixed(t: Record, old_: Record, n: nat): Record
    requires n <= RECLEN
  {
    Scatter(Gather(t)[..n] + Gather(old_)[n..])
  }

  lemma MixedIsIntendedIff(t: Record, old_: Record, n: nat)
    requires n <= RECLEN
    ensures Gather(Mixed(t, old_, n)) == Gather(t)[..n] + Gather(old_)[n..]
    ensures Mixed(t, old_, n) == t <==> Gather(t)[n..] == Gather(old_)[n..]
  {
    var image := Gather(t)[..n] + Gather(old_)[n..];
    GatherScatter(image);
    ScatterGather(t);
    assert Gather(t) == Gather(t)[..n] + Gather(t)[n..];
    assert image[n..] == Gather(old_)[n..];
  }

  /** Writing less over a record is writing the rest of the record back. */
  lemma ShortSplice(f: bytes, pos: nat, image: bytes, n: nat)
    requires n <= |image| && pos + |image| <= |f|
    ensures Splice(f, pos, image[..n]) == Splice(f, pos, image[..n] + f[pos..pos + |image|][n..])
  {
    assert f[pos + n..] == f[pos..pos + |image|][n..] + f[pos + |image|..];
  }

  /** A short write of an existing record is taken for success too. The table stays a table;
  the record is the new one up to there and the old one beyond, which is the intended one
  if and only if the two agree on what was not written. */
  lemma ShortWriteMixesRecord(f: bytes, k: nat, t: Record, n: nat)
    requires WellFormed(f) && k < Count(f) && n <= RECLEN
    ensures var f' := Splice(f, Pos(k), Gather(t)[..n]);
            && WellFormed(f') && Table(f') == Table(f)[k := Mixed(t, Table(f)[k], n)]
            && (Table(f')[k] == t <==> Gather(t)[n..] == Gather(Table(f)[k])[n..])
  {
    MixedSplice(f, k, t, n);
    MixedIsIntendedIff(t, Table(f)[k], n);
    WriteReplacesOneRecord(f, k, Mixed(t, Table(f)[k], n));
  }

  lemma MixedSplice(f: bytes, k: nat, t: Record, n: nat)
    requires WellFormed(f) && k < Count(f) && n <= RECLEN
    ensures Splice(f, Pos(k), Gather(t)[..n]) == Splice(f, Pos(k), Gather(Mixed(t, Table(f)[k], n)))
  {
    var old_ := f[Pos(k)..Pos(k) + RECLEN];
    GatherScatter(old_);
    assert Table(f)[k] == Scatter(old_);
    MixedIsIntendedIff(t, Table(f)[k], n);
    ShortSplice(f, Pos(k), Gather(t), n);
  }

  lemma CreateAppendsRecord(f: bytes, t: Record)
    requires WellFormed(f)
    ensures var f' := f + Gather(t);
            WellFormed(f') && Table(f') == Table(f) + [t]
  {
    var f' := f + Gather(t);
    assert |f| == Pos(Count(f)) && Count(f') == Count(f) + 1;
    assert f'[..HEADER] == f[..HEADER];
    forall j | 0 <= j < Count(f')
      ensures RecordAt(f', j) == (Table(f) + [t])[j]
    {
      if j < Count(f) {
        assert f'[Pos(j)..Pos(j) + RECLEN] == f[Pos(j)..Pos(j) + RECLEN];
      } else {
        assert f'[Pos(j)..Pos(j) + RECLEN] == Gather(t);
        ScatterGather(t);
      }
    }
  }

  /** A short write of a new record is taken for success and breaks the table: the table
  stays well formed exactly when the whole record reached the file. */
  lemma ShortCreateBreaksTable(f: bytes, t: Record, n: nat)
    requires WellFormed(f) && 0 < n <= RECLEN
    ensures WellFormed(f + Gather(t)[..n]) <==> n == RECLEN
  {
    var f' := f + Gather(t)[..n];
    assert f'[..HEADER] == f[..HEADER];
    assert |f'| - HEADER == Count(f) * RECLEN + n;
  }

  // ---------------------------------------------------------------------------
  // The table object

  class OsFile {
    var bytes: bytes
    constructor (b: bytes) ensures bytes == b { bytes := b; }
  }

  class FileTable {
    const file: OsFile
    var cursor: nat
    /** The record the caller passes in; reads fill it, writes send it. */
    var tally: Record

    constructor (f: OsFile, t: Record)
      ensures file == f && cursor == 0 && tally == t
    {
      file, cursor, tally := f, 0, t;
    }

    /** `filetab_read`: fills the record from the cursor and rewinds. At the end of the
    file nothing is filled and the call fails. */
    method Read(io: bool) returns (res: int)
      modifies this`cursor, this`tally
      ensures cursor == old(cursor)
      ensures !io ==> res == -1 && tally == old(tally)
      ensures io && cursor >= |file.bytes| ==> res == -1 && tally == old(tally)
      ensures io && cursor < |file.bytes| ==>
                && 0 < res <= RECLEN
                && res == (if cursor + RECLEN <= |file.bytes| then RECLEN else |file.bytes| - cursor)
                && Gather(tally) == file.bytes[cursor..cursor + res] + Gather(old(tally))[res..]
      ensures io && WellFormed(file.bytes) ==>
                forall k: nat :: k < Count(file.bytes) && cursor == Pos(k) ==> res == RECLEN && tally == RecordAt(file.bytes, k)
    {
      var start := cursor;
      if !io {
        return -1;
      }
      var n := if start >= |file.bytes| then 0
               else if start + RECLEN <= |file.bytes| then RECLEN else |file.bytes| - start;
      if n == 0 {
        return -1;
      }
      cursor := cursor + n;
      var data := file.bytes[start..start + n];
      var image := data + Gather(tally)[n..];
      tally := Scatter(image);
      GatherScatter(image);
      cursor := start;
      res := n;
      if n == RECLEN {
        assert image == file.bytes[start..start + RECLEN];
      }
    }

    /** `filetab_write`: sends the record at the cursor and rewinds; `n` is what writev
    reports, negative for an error. */
    method Write(n: int) returns (res: int)
      requires n <= RECLEN
      modifies this`cursor, file
      ensures cursor == old(cursor)
      ensures n <= 0 ==> res == -1 && file.bytes == old(file.bytes)
      ensures n > 0 ==> res == n && file.bytes == Splice(old(file.bytes), cursor, Gather(tally)[..n])
      ensures n > 0 && WellFormed(old(file.bytes)) ==>
                forall k: nat :: k < Count(old(file.bytes)) && cursor == Pos(k) ==>
                  && WellFormed(file.bytes)
                  && Table(file.bytes) == Table(old(file.bytes))[k := Mixed(tally, Table(old(file.bytes))[k], n)]
                  && (n == RECLEN ==> Table(file.bytes)[k] == tally)
    {
      var start := cursor;
      if n <= 0 {
        return -1;
      }
      var data := Gather(tally)[..n];
      var before := file.bytes;
      file.bytes := Splice(file.bytes, cursor, data);
      cursor := cursor + n;
      cursor := start;
      res := n;
      if WellFormed(before) {
        forall k: nat | k < Count(before) && cursor == Pos(k)
          ensures WellFormed(file.bytes) && Table(file.bytes) == Table(before)[k := Mixed(tally, Table(before)[k], n)]
          ensures n == RECLEN ==> Table(file.bytes)[k] == tally
        {
          ShortWriteMixesRecord(before, k, tally, n);
        }
      }
    }

    /** `filetab_create`: sends the record at the end of the file and leaves the cursor at
    its start. */
    method Create(n: int) returns (res: int)
      requires n <= RECLEN
      modifies this`cursor, file
      ensures cursor == |old(file.bytes)|
      ensures n <= 0 ==> res == -1 && file.bytes == old(file.bytes)
      ensures n > 0 ==> res == n && file.bytes == old(file.bytes) + Gather(tally)[..n]
      ensures n > 0 && WellFormed(old(file.bytes)) ==> (WellFormed(file.bytes) <==> n == RECLEN)
      ensures n == RECLEN && WellFormed(old(file.bytes)) ==>
                Table(file.bytes) == Table(old(file.bytes)) + [tally] && cursor == Pos(Count(old(file.bytes)))
    {
      cursor := |file.bytes|;
      var start := cursor;
      if n <= 0 {
        return -1;
      }
      var before := file.bytes;
      file.bytes := file.bytes + Gather(tally)[..n];
      cursor := cursor + n;
      cursor := start;
      res := n;
      if WellFormed(before) {
        ShortCreateBreaksTable(before, tally, n);
        if n == RECLEN {
          assert Gather(tally)[..n] == Gather(tally);
          CreateAppendsRecord(before, tally);
        }
      }
    }

    /** `filetab_verify`. */
    method Verify() returns (ok: bool)
      modifies this`cursor
      ensures ok <==> |file.bytes| >= HEADER && file.bytes[..HEADER] == TALLY_MAGIC
    {
      cursor := 0;
      if |file.bytes| < HEADER {
        cursor := |file.bytes|;
        return false;
      }
      var magic := file.bytes[..HEADER];
      cursor := HEADER;
      ok := magic == TALLY_MAGIC;
    }

    /** `filetab_lookup` on the tally table: the first matching record, if the reads up to
    it succeed; the cursor is left at its start. Without a match it is left past the last
    record, which in a well-formed table is the end of the file. */
    method Lookup(name: Option<bytes>, q: QuotaType, io: nat -> bool) returns (found: bool)
      modifies this`cursor, this`tally
      ensures var scan := Scan(file.bytes, old(tally));
              && (found <==> exists k :: 0 <= k < |scan| && Matches(scan[k], name, q) && AllUpTo(io, k))
              && (found ==> exists k :: && 0 <= k < |scan| && cursor == Pos(k) && tally == scan[k]
                                        && Matches(scan[k], name, q)
                                        && forall j :: 0 <= j < k ==> !Matches(scan[j], name, q))
              && (!found && (forall j: nat :: io(j)) ==> cursor == Pos(|scan|))
    {
      ghost var scan := Scan(file.bytes, tally);
      cursor := HEADER;
      var k: nat := 0;
      while true
        invariant k <= |scan| && cursor == Pos(k)
        invariant tally == if k == 0 then old(tally) else scan[k - 1]
        invariant PassedOver(scan, name, q, io, k)
        decreases |scan| - k
      {
        var read, wanted := Look(k, io(k), name, q, old(tally));
        if !read {
          NothingFound(scan, name, q, io, k);
          return false;
        }
        if wanted {
          assert AllUpTo(io, k);
          return true;
        }
        PassOver(scan, name, q, io, k);
        cursor := cursor + RECLEN;
        k := k + 1;
      }
    }

    /** One turn of the scan: read a record and compare. */
    method Look(k: nat, io: bool, name: Option<bytes>, q: QuotaType, ghost initial: Record) returns (read: bool, wanted: bool)
      requires k <= Reads(file.bytes) && cursor == Pos(k)
      requires tally == if k == 0 then initial else Scan(file.bytes, initial)[k - 1]
      modifies this`cursor, this`tally
      ensures cursor == old(cursor)
      ensures read <==> io && k < Reads(file.bytes)
      ensures read ==> tally == Scan(file.bytes, initial)[k] && (wanted <==> Matches(tally, name, q))
    {
      var res := ReadNext(k, io, initial);
      wanted := IsWanted(name, q);
      read := res >= 0;
    }

    /** The comparison with the record just read. */
    method IsWanted(name: Option<bytes>, q: QuotaType) returns (wanted: bool)
      ensures wanted <==> Matches(tally, name, q)
    {
      if tally.quotaType == TypeCode(q) {
        if name.Some? && name.value == CString(tally.name) {
          return true;
        }
        if q == AllQuota {
          return true;
        }
      }
      wanted := false;
    }

    /** The read of one scan step. */
    method ReadNext(k: nat, io: bool, ghost initial: Record) returns (res: int)
      requires k <= Reads(file.bytes) && cursor == Pos(k)
      requires tally == if k == 0 then initial else Scan(file.bytes, initial)[k - 1]
      modifies this`cursor, this`tally
      ensures cursor == old(cursor)
      ensures res < 0 <==> !io || k == Reads(file.bytes)
      ensures res >= 0 ==> tally == Scan(file.bytes, initial)[k]
    {
      ghost var before := tally;
      res := Read(io);
      if res >= 0 {
        SeenIsRead(file.bytes, k, initial, before, tally, res);
      }
    }

    /** The byte range an fcntl lock call made now would cover: it starts at the cursor. */
    function LockRange(): (int, int)
      reads this`cursor
    {
      (cursor, cursor + RECLEN)
    }

    /** The file calls of one tally update: write lock, re-read, store, unlock. Both lock
    calls cover the bytes that are read and written in between, whether the read and the
    store succeed or not; what is stored at a record of the table is that very record
    charged, or the copy in memory if the read failed. */
    method Update(charge: Record -> Record, io: bool, n: int) returns (locked: (int, int), unlocked: (int, int))
      requires n <= RECLEN
      modifies this`cursor, this`tally, file
      ensures cursor == old(cursor)
      ensures locked == unlocked == (cursor, cursor + RECLEN)
      ensures n <= 0 ==> file.bytes == old(file.bytes)
      ensures WellFormed(old(file.bytes)) ==>
                forall k: nat :: k < Count(old(file.bytes)) && cursor == Pos(k) ==>
                  && tally == charge(if io then Table(old(file.bytes))[k] else old(tally))
                  && WellFormed(file.bytes)
                  && (n > 0 ==> Table(file.bytes) == Table(old(file.bytes))[k := Mixed(tally, Table(old(file.bytes))[k], n)])
                  && (n == RECLEN ==> Table(file.bytes)[k] == tally)
    {
      locked := LockRange();
      var res := Read(io);
      tally := charge(tally);
      res := Write(n);
      unlocked := LockRange();
    }
  }
}
