/** The counted read/write lock of a quota table: `quotatab_rlock`, `quotatab_runlock`,
`quotatab_wlock` and `quotatab_wunlock` over one advisory lock of the operating system.

The counters are unsigned integers in the source and natural numbers here.
*/
module TableLock {

  datatype OsLock = Unlocked | ReadLock | WriteLock

  /** What one call of a backend lock routine reports: success, EINTR, EAGAIN or EACCES,
  any other error. */
  datatype Reply = Granted | Interrupted | Conflict | Failed

  const MAX_LOCK_ATTEMPTS: nat := 10

  datatype Locks = Locks(readers: nat, writers: nat, held: OsLock)

  /** The lock a table with these counters ought to hold. */
  function Owed(readers: nat, writers: nat): OsLock {
    if writers > 0 then WriteLock else if readers > 0 then ReadLock else Unlocked
  }

  ghost predicate Consistent(l: Locks) { l.held == Owed(l.readers, l.writers) }

  // ---------------------------------------------------------------------------
  // The retry loops

  function Conflicts(reply: nat -> Reply, n: nat): nat {
    if n == 0 then 0 else Conflicts(reply, n - 1) + if reply(n - 1) == Conflict then 1 else 0
  }

  /** The n-th call is the one that grants the lock: everything before it was an
  interruption or one of fewer than ten conflicts. */
  ghost predicate GrantedAt(reply: nat -> Reply, n: nat) {
    && reply(n) == Granted
    && Conflicts(reply, n) < MAX_LOCK_ATTEMPTS
    && forall i: nat :: i < n ==> reply(i) == Interrupted || reply(i) == Conflict
  }

  /** Release is retried on interruptions only. */
  ghost predicate ReleasedAt(reply: nat -> Reply, n: nat) {
    reply(n) == Granted && forall i: nat :: i < n ==> reply(i) == Interrupted
  }

  /** Signals stop arriving at some point; without this the loops need not end. */
  ghost predicate QuietFrom(reply: nat -> Reply, quiet: nat) {
    forall i: nat :: i >= quiet ==> reply(i) != Interrupted
  }

  method Acquire(reply: nat -> Reply, ghost quiet: nat) returns (ok: bool, calls: nat)
    requires QuietFrom(reply, quiet)
    ensures ok <==> exists n: nat :: GrantedAt(reply, n)
    ensures ok ==> calls > 0 && GrantedAt(reply, calls - 1)
    ensures Conflicts(reply, calls) <= MAX_LOCK_ATTEMPTS
  {
    var attempts := 1;
    calls := 0;
    while reply(calls) != Granted
      invariant attempts == 1 + Conflicts(reply, calls) <= MAX_LOCK_ATTEMPTS
      invariant forall i: nat :: i < calls ==> reply(i) == Interrupted || reply(i) == Conflict
      decreases MAX_LOCK_ATTEMPTS - attempts, if calls < quiet then quiet - calls else 0
    {
      var r := reply(calls);
      calls := calls + 1;
      if r == Interrupted {
        continue;
      }
      if r == Conflict {
        attempts := attempts + 1;
        if attempts <= MAX_LOCK_ATTEMPTS {
          continue;
        }
      }
      NoGrant(reply, calls);
      return false, calls;
    }
    assert GrantedAt(reply, calls);
    return true, calls + 1;
  }

  lemma {:induction false} ConflictsGrow(reply: nat -> Reply, m: nat, n: nat)
    requires m <= n
    ensures Conflicts(reply, m) <= Conflicts(reply, n)
    decreases n - m
  {
    if m < n {
      ConflictsGrow(reply, m + 1, n);
    }
  }

  lemma {:induction false} NoGrant(reply: nat -> Reply, calls: nat)
    requires calls > 0
    requires forall i: nat :: i < calls ==> reply(i) != Granted
    requires reply(calls - 1) == Failed || Conflicts(reply, calls) >= MAX_LOCK_ATTEMPTS
    ensures forall n: nat :: !GrantedAt(reply, n)
  {
    forall n: nat
      ensures !GrantedAt(reply, n)
    {
      if n >= calls {
        ConflictsGrow(reply, calls, n);
      }
    }
  }

  method Release(reply: nat -> Reply, ghost quiet: nat) returns (ok: bool)
    requires QuietFrom(reply, quiet)
    ensures ok <==> exists n: nat :: ReleasedAt(reply, n)
  {
    var calls := 0;
    while reply(calls) == Interrupted
      invariant forall i: nat :: i < calls ==> reply(i) == Interrupted
      decreases quiet - calls
    {
      calls := calls + 1;
    }
    ok := reply(calls) == Granted;
    if ok {
      assert ReleasedAt(reply, calls);
    }
  }

  // ---------------------------------------------------------------------------
  // One lock operation; `granted` says how its backend call ended, when it makes one

  datatype Op = RLock(granted: bool) | RUnlock(granted: bool) | WLock(granted: bool) | WUnlock(granted: bool)

  predicate NeedsOs(l: Locks, op: Op) {
    match op
    case RLock(_) => l.readers == 0 && l.writers == 0
    case RUnlock(_) => l.readers == 1 && l.writers == 0
    case WLock(_) => l.writers == 0
    case WUnlock(_) => l.writers == 1
  }

  predicate Succeeds(l: Locks, op: Op) { NeedsOs(l, op) ==> op.granted }

  function Dec(n: nat): nat { if n > 0 then n - 1 else 0 }

  function Step(l: Locks, op: Op): Locks {
    if !Succeeds(l, op) then l
    else
      match op
      case RLock(_) => Locks(l.readers + 1, l.writers, if NeedsOs(l, op) then ReadLock else l.held)
      case RUnlock(_) => Locks(Dec(l.readers), l.writers, if NeedsOs(l, op) then Unlocked else l.held)
      case WLock(_) => Locks(l.readers, l.writers + 1, if NeedsOs(l, op) then WriteLock else l.held)
      case WUnlock(_) =>
        Locks(l.readers, Dec(l.writers),
              if !NeedsOs(l, op) then l.held else if l.readers == 0 then Unlocked else ReadLock)
  }

  function Run(l: Locks, ops: seq<Op>): Locks
    decreases ops
  {
    if ops == [] then l else Run(Step(l, ops[0]), ops[1..])
  }

  /** After any sequence of lock calls, failing backends included, the lock held is the
  one the counters call for. */
  lemma {:induction false} HeldLockMatchesCounters(l: Locks, ops: seq<Op>)
    requires Consistent(l)
    ensures Consistent(Run(l, ops))
    decreases ops
  {
    if ops != [] {
      HeldLockMatchesCounters(Step(l, ops[0]), ops[1..]);
    }
  }

  /** Readers nested in a writer come and go without touching the write lock. */
  lemma {:induction false} NestedReadsKeepWriteLock(l: Locks, ops: seq<Op>)
    requires Consistent(l) && l.writers > 0
    requires forall i :: 0 <= i < |ops| ==> ops[i].RLock? || ops[i].RUnlock?
    ensures Run(l, ops).held == WriteLock && Run(l, ops).writers == l.writers
    decreases ops
  {
    if ops != [] {
      NestedReadsKeepWriteLock(Step(l, ops[0]), ops[1..]);
    }
  }

  /** A write section that begins under a read lock gives the read lock back. */
  lemma {:induction false} UpgradeThenDowngrade(l: Locks, nested: seq<Op>)
    requires Consistent(l) && l.writers == 0 && l.readers > 0
    requires forall i :: 0 <= i < |nested| ==> nested[i].RLock? || nested[i].RUnlock?
    ensures var end := Run(l, [WLock(true)] + nested + [WUnlock(true)]);
            end.writers == 0 && end.held == (if end.readers > 0 then ReadLock else Unlocked)
  {
    var up := Step(l, WLock(true));
    assert [WLock(true)] + nested + [WUnlock(true)] == [WLock(true)] + (nested + [WUnlock(true)]);
    assert ([WLock(true)] + (nested + [WUnlock(true)]))[1..] == nested + [WUnlock(true)];
    RunConcat(up, nested, [WUnlock(true)]);
    NestedReadsKeepWriteLock(up, nested);
    HeldLockMatchesCounters(up, nested);
    var last := Run(up, nested);
    assert [WUnlock(true)][1..] == [];
    assert Run(last, [WUnlock(true)]) == Step(last, WUnlock(true));
  }

  lemma {:induction false} RunConcat(l: Locks, a: seq<Op>, b: seq<Op>)
    ensures Run(l, a + b) == Run(Run(l, a), b)
    decreases a
  {
    if a == [] {
      assert a + b == b;
    } else {
      assert (a + b)[0] == a[0] && (a + b)[1..] == a[1..] + b;
      RunConcat(Step(l, a[0]), a[1..], b);
    }
  }

  // ---------------------------------------------------------------------------
  // The counters count the calls

  /** The calls of one kind that succeed when they are made in this order. */
  function LocksTaken(l: Locks, ops: seq<Op>, write: bool): nat
    decreases ops
  {
    if ops == [] then 0
    else
      (if (if write then ops[0].WLock? else ops[0].RLock?) && Succeeds(l, ops[0]) then 1 else 0)
      + LocksTaken(Step(l, ops[0]), ops[1..], write)
  }

  /** The unlocks of one kind that succeed while there is something to unlock. */
  function LocksGiven(l: Locks, ops: seq<Op>, write: bool): nat
    decreases ops
  {
    if ops == [] then 0
    else
      (if (if write then ops[0].WUnlock? && l.writers > 0 else ops[0].RUnlock? && l.readers > 0) && Succeeds(l, ops[0])
       then 1 else 0)
      + LocksGiven(Step(l, ops[0]), ops[1..], write)
  }

  /** After any sequence of lock calls, failing ones included, each counter is what it was
  plus the locks that succeeded minus the unlocks that did on a nonzero count. */
  lemma {:induction false} CountersCountCalls(l: Locks, ops: seq<Op>)
    ensures Run(l, ops).readers == l.readers + LocksTaken(l, ops, false) - LocksGiven(l, ops, false)
    ensures Run(l, ops).writers == l.writers + LocksTaken(l, ops, true) - LocksGiven(l, ops, true)
    decreases ops
  {
    if ops != [] {
      CountersCountCalls(Step(l, ops[0]), ops[1..]);
    }
  }

  /** How many more locks than unlocks of one kind a list of calls has. */
  function Depth(ops: seq<Op>, write: bool): int {
    if |ops| == 0 then 0
    else
      var op := ops[|ops| - 1];
      Depth(ops[..|ops| - 1], write)
      + (if write then (if op.WLock? then 1 else if op.WUnlock? then -1 else 0)
         else (if op.RLock? then 1 else if op.RUnlock? then -1 else 0))
  }

  /** Calls that all succeed and give up nothing they have not taken. */
  ghost predicate Paired(ops: seq<Op>) {
    && (forall i :: 0 <= i < |ops| ==> ops[i].granted)
    && (forall n, write :: 0 <= n <= |ops| ==> Depth(ops[..n], write) >= 0)
  }

  lemma {:induction false} CountersFollowDepth(l: Locks, ops: seq<Op>)
    requires Paired(ops)
    ensures Run(l, ops).readers == l.readers + Depth(ops, false)
    ensures Run(l, ops).writers == l.writers + Depth(ops, true)
    decreases ops
  {
    if ops != [] {
      var n := |ops| - 1;
      var past, op := ops[..n], ops[n];
      assert past + [op] == ops && ops[..|ops|] == ops;
      forall m, write | 0 <= m <= n
        ensures Depth(past[..m], write) >= 0
      {
        assert past[..m] == ops[..m];
      }
      CountersFollowDepth(l, past);
      RunConcat(l, past, [op]);
      assert Run(Run(l, past), [op]) == Step(Run(l, past), op);
      assert Depth(ops[..|ops|], false) >= 0 && Depth(ops[..|ops|], true) >= 0;
    }
  }

  /** A list of succeeding calls that pairs every lock with a later unlock, nested in any
  way, leaves the counters and the lock as it found them. */
  lemma {:induction false} PairedCallsRestore(l: Locks, ops: seq<Op>)
    requires Consistent(l) && Paired(ops) && Depth(ops, false) == 0 && Depth(ops, true) == 0
    ensures Run(l, ops) == l
  {
    CountersFollowDepth(l, ops);
    HeldLockMatchesCounters(l, ops);
  }

  // ---------------------------------------------------------------------------
  // The table object

  class QuotaTable {
    var readers: nat
    var writers: nat
    /** What the operating system has granted to this process. */
    var held: OsLock

    function View(): Locks reads this { Locks(readers, writers, held) }

    ghost predicate Valid() reads this { Consistent(View()) }

    constructor ()
      ensures Valid() && View() == Locks(0, 0, Unlocked)
    {
      readers, writers, held := 0, 0, Unlocked;
    }

    method RLock(reply: nat -> Reply, ghost quiet: nat) returns (ok: bool)
      requires Valid() && QuietFrom(reply, quiet)
      modifies this
      ensures Valid()
      ensures View() == Step(old(View()), Op.RLock(exists n: nat :: GrantedAt(reply, n)))
      ensures ok == Succeeds(old(View()), Op.RLock(exists n: nat :: GrantedAt(reply, n)))
      ensures readers == old(readers) + (if ok then 1 else 0) && writers == old(writers)
    {
      if readers == 0 && writers == 0 {
        var granted, _ := Acquire(reply, quiet);
        if !granted {
          return false;
        }
        held := ReadLock;
      }
      readers := readers + 1;
      ok := true;
    }

    method RUnlock(reply: nat -> Reply, ghost quiet: nat) returns (ok: bool)
      requires Valid() && QuietFrom(reply, quiet)
      modifies this
      ensures Valid()
      ensures View() == Step(old(View()), Op.RUnlock(exists n: nat :: ReleasedAt(reply, n)))
      ensures ok == Succeeds(old(View()), Op.RUnlock(exists n: nat :: ReleasedAt(reply, n)))
      ensures readers == old(readers) - (if ok && old(readers) > 0 then 1 else 0) && writers == old(writers)
    {
      ok := true;
      if readers == 1 && writers == 0 {
        ok := Release(reply, quiet);
        if ok {
          held := Unlocked;
        }
      }
      if ok && readers > 0 {
        readers := readers - 1;
      }
    }

    method WLock(reply: nat -> Reply, ghost quiet: nat) returns (ok: bool)
      requires Valid() && QuietFrom(reply, quiet)
      modifies this
      ensures Valid()
      ensures View() == Step(old(View()), Op.WLock(exists n: nat :: GrantedAt(reply, n)))
      ensures ok == Succeeds(old(View()), Op.WLock(exists n: nat :: GrantedAt(reply, n)))
      ensures writers == old(writers) + (if ok then 1 else 0) && readers == old(readers)
    {
      if writers == 0 {
        var granted, _ := Acquire(reply, quiet);
        if !granted {
          return false;
        }
        held := WriteLock;
      }
      writers := writers + 1;
      ok := true;
    }

    /** The full unlock is retried on interruptions, the downgrade is tried once. */
    method WUnlock(reply: nat -> Reply, ghost quiet: nat) returns (ok: bool)
      requires Valid() && QuietFrom(reply, quiet)
      modifies this
      ensures Valid()
      ensures var granted := if old(readers) == 0 then exists n: nat :: ReleasedAt(reply, n)
                             else reply(0) == Granted;
              View() == Step(old(View()), Op.WUnlock(granted)) && ok == Succeeds(old(View()), Op.WUnlock(granted))
      ensures writers == old(writers) - (if ok && old(writers) > 0 then 1 else 0) && readers == old(readers)
    {
      ok := true;
      if writers == 1 {
        if readers == 0 {
          ok := Release(reply, quiet);
          if ok {
            held := Unlocked;
          }
        } else {
          ok := reply(0) == Granted;
          if ok {
            held := ReadLock;
          }
        }
      }
      if ok && writers > 0 {
        writers := writers - 1;
      }
    }
  }
}
