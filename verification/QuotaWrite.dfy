/** `quotatab_write` of one process over either backend.

The file backend stores the tally it is handed. The SQL backend ignores it and adds
the deltas of the call to the row, so its file counts are signed and may go negative.
*/
module QuotaWrite {
  import opened QuotaTypes
  import opened ClampedTally
  import opened SharedTally
  import opened TL = TableLock

  datatype Row = Row(
    bytesIn: real, bytesOut: real, bytesXfer: real,
    filesIn: int, filesOut: int, filesXfer: int)

  const NoDeltas := Increment(0.0, 0.0, 0.0, 0, 0, 0)

  /** Reading a row back into the unsigned counters of a tally. */
  function FromRow(r: Row): Tally {
    Tally(r.bytesIn, r.bytesOut, r.bytesXfer,
          r.filesIn % UINT_MOD, r.filesOut % UINT_MOD, r.filesXfer % UINT_MOD)
  }

  function ToRow(t: Tally): Row {
    Row(t.bytesIn, t.bytesOut, t.bytesXfer, t.filesIn, t.filesOut, t.filesXfer)
  }

  /** The deltas of a call: the increments of the limited columns. */
  function Deltas(l: Limit, i: Increment): Increment {
    Increment(
      SqlDelta(l.bytesIn, i.bytesIn), SqlDelta(l.bytesOut, i.bytesOut), SqlDelta(l.bytesXfer, i.bytesXfer),
      if l.filesIn != 0 then i.filesIn else 0,
      if l.filesOut != 0 then i.filesOut else 0,
      if l.filesXfer != 0 then i.filesXfer else 0)
  }

  function AddDeltas(r: Row, d: Increment): Row {
    Row(r.bytesIn + d.bytesIn, r.bytesOut + d.bytesOut, r.bytesXfer + d.bytesXfer,
        r.filesIn + d.filesIn, r.filesOut + d.filesOut, r.filesXfer + d.filesXfer)
  }

  datatype Backend = FileBackend | SqlBackend

  /** The environment of one call: how the lock routines answer and whether the read and
  the store of the backend succeed. */
  datatype Env = Env(lock: nat -> Reply, unlock: nat -> Reply, ghost quiet: nat, readOk: bool, storeOk: bool)

  ghost predicate Fair(e: Env) { QuietFrom(e.lock, e.quiet) && QuietFrom(e.unlock, e.quiet) }

  ghost predicate Grants(e: Env) { exists n: nat :: GrantedAt(e.lock, n) }

  ghost predicate Releases(e: Env, readers: nat) {
    if readers == 0 then exists n: nat :: ReleasedAt(e.unlock, n) else e.unlock(0) == Granted
  }

  class Store {
    var row: Row
    constructor (r: Row) ensures row == r { row := r; }
  }

  class TallySession {
    const backend: Backend
    const limit: Limit
    const table: QuotaTable
    const store: Store
    var tally: Tally
    var deltas: Increment

    constructor (b: Backend, l: Limit, t: QuotaTable, s: Store, initial: Tally)
      ensures backend == b && limit == l && table == t && store == s && tally == initial && deltas == NoDeltas
    {
      backend, limit, table, store, tally, deltas := b, l, t, s, initial, NoDeltas;
    }

    /** `quotatab_read` under a write lock already held. */
    method Refresh(e: Env) returns (ok: bool)
      requires table.Valid() && table.writers > 0 && Fair(e)
      modifies this`tally, table
      ensures table.Valid() && table.View() == old(table.View())
      ensures ok == e.readOk
      ensures tally == if ok then FromRow(store.row) else old(tally)
    {
      var locked := table.RLock(e.lock, e.quiet);
      ok := e.readOk;
      if ok {
        tally := FromRow(store.row);
      }
      var unlocked := table.RUnlock(e.unlock, e.quiet);
    }

    method Write(inc: Increment, e: Env) returns (ok: bool)
      requires table.Valid() && Fair(e)
      modifies this, table, store
      ensures table.Valid()
      // without the write lock nothing happens
      ensures old(table.writers) == 0 && !Grants(e) ==>
                !ok && tally == old(tally) && deltas == old(deltas) && store.row == old(store.row)
                && table.View() == old(table.View())
      // with it, the session's tally is the freshest copy plus the clamped increment
      ensures old(table.writers) > 0 || Grants(e) ==>
                && deltas == NoDeltas
                && tally == Charge(limit, if !limit.perSession && e.readOk then FromRow(old(store.row)) else old(tally), inc)
                && store.row == (if limit.perSession || !e.storeOk then old(store.row)
                                 else if backend == FileBackend then ToRow(tally)
                                 else AddDeltas(old(store.row), Deltas(limit, inc)))
                && ok == (limit.perSession || (e.storeOk && (old(table.writers) > 0 || Releases(e, old(table.readers)))))
                // the next reader of a file table sees this very tally
                && (backend == FileBackend && !limit.perSession && e.storeOk ==> FromRow(store.row) == tally)
                && table.readers == old(table.readers)
                && table.writers == old(table.writers)
                                    + (if old(table.writers) > 0 || Releases(e, old(table.readers)) then 0 else 1)
    {
      var locked := table.WLock(e.lock, e.quiet);
      if !locked {
        return false;
      }
      ok := WriteLocked(inc, e);
    }

    /** The part of the write done under the lock, up to and including the unlock. */
    method WriteLocked(inc: Increment, e: Env) returns (ok: bool)
      requires table.Valid() && table.writers > 0 && Fair(e)
      modifies this, table, store
      ensures table.Valid()
      ensures deltas == NoDeltas
      ensures tally == Charge(limit, if !limit.perSession && e.readOk then FromRow(old(store.row)) else old(tally), inc)
      ensures store.row == if limit.perSession || !e.storeOk then old(store.row)
                           else if backend == FileBackend then ToRow(tally)
                           else AddDeltas(old(store.row), Deltas(limit, inc))
      ensures backend == FileBackend && !limit.perSession && e.storeOk ==> FromRow(store.row) == tally
      ensures table.View() == TL.Step(old(table.View()), Op.WUnlock(Releases(e, old(table.readers))))
      ensures ok == (limit.perSession || (e.storeOk && Succeeds(old(table.View()), Op.WUnlock(Releases(e, old(table.readers))))))
    {
      deltas := NoDeltas;
      if !limit.perSession {
        var _ := Refresh(e);
      }
      Add(inc);
      if limit.perSession {
        deltas := NoDeltas;
        var _ := table.WUnlock(e.unlock, e.quiet);
        return true;
      }
      if !e.storeOk {
        var _ := table.WUnlock(e.unlock, e.quiet);
        deltas := NoDeltas;
        return false;
      }
      RowRoundTrip(tally);
      store.row := if backend == FileBackend then ToRow(tally) else AddDeltas(store.row, deltas);
      var unlocked := table.WUnlock(e.unlock, e.quiet);
      deltas := NoDeltas;
      return unlocked;
    }

    method Add(inc: Increment)
      requires deltas == NoDeltas
      modifies this
      ensures tally == Charge(limit, old(tally), inc) && deltas == Deltas(limit, inc)
    {
      AddBytesAndDeltas(inc);
      AddFilesAndDeltas(inc);
    }

    method AddBytesAndDeltas(inc: Increment)
      modifies this
      requires deltas == NoDeltas
      ensures tally == old(tally).(bytesIn := AddBytes(limit.bytesIn, old(tally).bytesIn, inc.bytesIn),
                                   bytesOut := AddBytes(limit.bytesOut, old(tally).bytesOut, inc.bytesOut),
                                   bytesXfer := AddBytes(limit.bytesXfer, old(tally).bytesXfer, inc.bytesXfer))
      ensures deltas == NoDeltas.(bytesIn := SqlDelta(limit.bytesIn, inc.bytesIn),
                                  bytesOut := SqlDelta(limit.bytesOut, inc.bytesOut),
                                  bytesXfer := SqlDelta(limit.bytesXfer, inc.bytesXfer))
    {
      if limit.bytesIn > 0.0 {
        tally := tally.(bytesIn := tally.bytesIn + inc.bytesIn);
        if tally.bytesIn < 0.0 { tally := tally.(bytesIn := 0.0); }
        deltas := deltas.(bytesIn := inc.bytesIn);
      }
      if limit.bytesOut > 0.0 {
        tally := tally.(bytesOut := tally.bytesOut + inc.bytesOut);
        if tally.bytesOut < 0.0 { tally := tally.(bytesOut := 0.0); }
        deltas := deltas.(bytesOut := inc.bytesOut);
      }
      if limit.bytesXfer > 0.0 {
        tally := tally.(bytesXfer := tally.bytesXfer + inc.bytesXfer);
        if tally.bytesXfer < 0.0 { tally := tally.(bytesXfer := 0.0); }
        deltas := deltas.(bytesXfer := inc.bytesXfer);
      }
    }

    method AddFilesAndDeltas(inc: Increment)
      modifies this
      requires deltas.filesIn == deltas.filesOut == deltas.filesXfer == 0
      ensures tally == old(tally).(filesIn := AddFiles(limit.filesIn, old(tally).filesIn, inc.filesIn),
                                   filesOut := AddFiles(limit.filesOut, old(tally).filesOut, inc.filesOut),
                                   filesXfer := AddFiles(limit.filesXfer, old(tally).filesXfer, inc.filesXfer))
      ensures deltas == old(deltas).(filesIn := if limit.filesIn != 0 then inc.filesIn else 0,
                                     filesOut := if limit.filesOut != 0 then inc.filesOut else 0,
                                     filesXfer := if limit.filesXfer != 0 then inc.filesXfer else 0)
    {
      if limit.filesIn != 0 {
        if !(tally.filesIn == 0 && inc.filesIn < 0) {
          tally := tally.(filesIn := Wrapped(tally.filesIn + inc.filesIn));
        }
        deltas := deltas.(filesIn := inc.filesIn);
      }
      if limit.filesOut != 0 {
        if !(tally.filesOut == 0 && inc.filesOut < 0) {
          tally := tally.(filesOut := Wrapped(tally.filesOut + inc.filesOut));
        }
        deltas := deltas.(filesOut := inc.filesOut);
      }
      if limit.filesXfer != 0 {
        if !(tally.filesXfer == 0 && inc.filesXfer < 0) {
          tally := tally.(filesXfer := Wrapped(tally.filesXfer + inc.filesXfer));
        }
        deltas := deltas.(filesXfer := inc.filesXfer);
      }
    }
  }

  /** A file row read back is the tally that was stored. */
  lemma RowRoundTrip(t: Tally)
    ensures FromRow(ToRow(t)) == t
  {
  }

  /** The SQL row after the same committed writes. */
  function SqlReplay(init: Row, log: seq<Commit>): Row {
    if log == [] then init
    else
      var last := log[|log| - 1];
      AddDeltas(SqlReplay(init, log[..|log| - 1]), Deltas(last.limit, last.inc))
  }

  function RowOf(r: Row, c: Counter): real {
    match c
    case BytesIn => r.bytesIn
    case BytesOut => r.bytesOut
    case BytesXfer => r.bytesXfer
    case FilesIn => r.filesIn as real
    case FilesOut => r.filesOut as real
    case FilesXfer => r.filesXfer as real
  }

  /** What the writes add to a column: the increments of those whose limit counts it. */
  function DeltasOf(log: seq<Commit>, c: Counter): seq<real> {
    seq(|log|, i requires 0 <= i < |log| => if AvailOf(log[i].limit, c) > 0.0 then IncOf(log[i].inc, c) else 0.0)
  }

  lemma DeltaColumn(r: Row, l: Limit, i: Increment, c: Counter)
    ensures RowOf(AddDeltas(r, Deltas(l, i)), c) == RowOf(r, c) + if AvailOf(l, c) > 0.0 then IncOf(i, c) else 0.0
  {
  }

  /** Every column of the row, bytes and files, is the initial one plus the sum of its deltas,
  whatever the limits the writes were made under. */
  lemma {:induction false} SqlRowIsPlainSum(init: Row, log: seq<Commit>, c: Counter)
    ensures RowOf(SqlReplay(init, log), c) == RowOf(init, c) + Sum(DeltasOf(log, c))
  {
    if log != [] {
      var rest, last := log[..|log| - 1], log[|log| - 1];
      SqlRowIsPlainSum(init, rest, c);
      assert DeltasOf(log, c)[..|log| - 1] == DeltasOf(rest, c);
      DeltaColumn(SqlReplay(init, rest), last.limit, last.inc, c);
    }
  }

  lemma {:induction false} SqlReplayColumn(init: Row, log: seq<Commit>, c: Counter, avail: real)
    requires CountsBytes(c) && forall i :: 0 <= i < |log| ==> AvailOf(log[i].limit, c) == avail
    ensures RowOf(SqlReplay(init, log), c) == SqlColumn(avail, RowOf(init, c), IncsOf(log, c))
  {
    if log != [] {
      var rest, last := log[..|log| - 1], log[|log| - 1];
      SqlReplayColumn(init, rest, c, avail);
      assert IncsOf(log, c)[..|log| - 1] == IncsOf(rest, c);
      DeltaColumn(SqlReplay(init, rest), last.limit, last.inc, c);
    }
  }

  /** The same writes committed to both backends: each SQL byte column is never above the file
  one, and equal exactly while the running sum has stayed at or above zero. */
  lemma {:induction false} BackendsAgreeIff(init: Tally, log: seq<Commit>, c: Counter, avail: real)
    requires CountsBytes(c) && avail > 0.0 && UsedOf(init, c) >= 0.0
    requires forall i :: 0 <= i < |log| ==> AvailOf(log[i].limit, c) == avail
    ensures RowOf(SqlReplay(ToRow(init), log), c) <= UsedOf(Replay(init, log), c)
    ensures RowOf(SqlReplay(ToRow(init), log), c) == UsedOf(Replay(init, log), c)
            <==> forall k :: 1 <= k <= |log| ==> Level(UsedOf(init, c), IncsOf(log, c), k) >= 0.0
  {
    SqlReplayColumn(ToRow(init), log, c, avail);
    ReplayColumn(init, log, c, avail);
    SqlNeverExceedsFile(avail, UsedOf(init, c), IncsOf(log, c));
  }
}
