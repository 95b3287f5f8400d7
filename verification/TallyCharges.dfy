/** No charge is lost on the bytes of the tally table: whatever the interleaving of logins,
reads and writes, a record's counters are its first counters with every charge stored at it.
*/
module TallyCharges {
  import opened Optional
  import opened TallyFile
  import opened TallySessions
  import opened TallyLocks
  import opened TallyKeys
  import opened TallyRecords
  import L = Login

  /** The charges stored at record k, in the order of their stores. */
  function Charged(first: Counters, log: seq<Commit>, k: nat): Counters {
    if |log| == 0 then first
    else
      var c := Charged(first, log[..|log| - 1], k);
      if log[|log| - 1].k == k then log[|log| - 1].add(c) else c
  }

  function ZeroCounters(): Counters {
    Counters(seq(8, _ => 0), seq(8, _ => 0), seq(8, _ => 0), [0, 0, 0, 0], [0, 0, 0, 0], [0, 0, 0, 0])
  }

  /** A record that was not in the table at first has been created since, with all counters zero. */
  function First(t: seq<Record>, k: nat): Counters { if k < |t| then CountersOf(t[k]) else ZeroCounters() }

  ghost predicate Exact(t: seq<Record>, log: seq<Commit>, first: seq<Record>) {
    && (forall k :: 0 <= k < |t| ==> CountersOf(t[k]) == Charged(First(first, k), log, k))
    && (forall i :: 0 <= i < |log| ==> log[i].k < |t|)
    && |first| <= |t|
  }

  /** Between its read and its write a session has the counters of the table in memory. */
  ghost predicate Fresh(t: seq<Record>, me: Proc) {
    match me.stage
    case Session(ReadRewind(start)) => Index(start) < |t| && CountersOf(me.mem) == CountersOf(t[Index(start)])
    case Session(AtCharge) => Index(me.cursor) < |t| && CountersOf(me.mem) == CountersOf(t[Index(me.cursor)])
    case Session(AtWrite(add)) => Index(me.cursor) < |t| && CountersOf(me.mem) == add(CountersOf(t[Index(me.cursor)]))
    case _ => true
  }

  ghost predicate ChargeInv(s: System, first: seq<Record>) {
    && Inv(s) && LockInv(s)
    && (s.mutexHeld && s.updatesRead ==>
          && Exact(Table(s.file), s.log, first)
          && forall p :: p in s.procs ==> Fresh(Table(s.file), s.procs[p]))
  }

  lemma {:induction false} NothingCharged(first: Counters, log: seq<Commit>, k: nat)
    requires forall i :: 0 <= i < |log| ==> log[i].k != k
    ensures Charged(first, log, k) == first
  {
    if |log| != 0 {
      NothingCharged(first, log[..|log| - 1], k);
    }
  }

  lemma {:induction false} ChargedOnce(first: Counters, log: seq<Commit>, e: Commit, k: nat)
    ensures Charged(first, log + [e], k) == if e.k == k then e.add(Charged(first, log, k)) else Charged(first, log, k)
  {
    assert (log + [e])[..|log|] == log;
  }

  lemma ExactAfterStore(t: seq<Record>, log: seq<Commit>, first: seq<Record>, k: nat, add: Charging, r: Record)
    requires Exact(t, log, first) && k < |t| && CountersOf(r) == add(CountersOf(t[k]))
    ensures Exact(t[k := r], log + [Commit(k, add)], first)
  {
    forall i | 0 <= i < |t|
      ensures CountersOf(t[k := r][i]) == Charged(First(first, i), log + [Commit(k, add)], i)
    {
      ChargedOnce(First(first, i), log, Commit(k, add), i);
    }
  }

  lemma ExactAfterCreate(t: seq<Record>, log: seq<Commit>, first: seq<Record>, key: Key)
    requires Exact(t, log, first) && L.ValidKey(key)
    ensures Exact(t + [L.NewRecord(key)], log, first)
  {
    NothingCharged(ZeroCounters(), log, |t|);
    assert CountersOf(L.NewRecord(key)) == ZeroCounters();
  }

  /** The charges of a step: one, if it is a store. */
  function NextLog(log: seq<Commit>, me: Proc, a: Action): seq<Commit> {
    if Stores(me, a) then log + [Commit(Index(me.cursor), me.stage.session.add)] else log
  }

  lemma ExactCreated(f: bytes, log: seq<Commit>, first: seq<Record>, me: Proc, a: Action)
    requires WellFormed(f) && Placed(f, me) && KeyHeld(f, me) && Exact(Table(f), log, first) && Creates(me, a)
    ensures Exact(Table(NextFile(f, me, a)), log, first)
  {
    TableStep(f, me, a);
    ExactAfterCreate(Table(f), log, first, me.key);
  }

  lemma ExactStored(f: bytes, log: seq<Commit>, first: seq<Record>, me: Proc, a: Action)
    requires WellFormed(f) && Placed(f, me) && KeyHeld(f, me) && Fresh(Table(f), me) && Exact(Table(f), log, first)
    requires Stores(me, a)
    ensures Exact(Table(NextFile(f, me, a)), log + [Commit(Index(me.cursor), me.stage.session.add)], first)
  {
    TableStep(f, me, a);
    ExactAfterStore(Table(f), log, first, Index(me.cursor), me.stage.session.add, me.mem);
  }

  lemma ExactStep(f: bytes, log: seq<Commit>, first: seq<Record>, me: Proc, a: Action)
    requires WellFormed(f) && Placed(f, me) && KeyHeld(f, me) && Fresh(Table(f), me) && Exact(Table(f), log, first)
    ensures Exact(Table(NextFile(f, me, a)), NextLog(log, me, a), first)
  {
    if Creates(me, a) {
      ExactCreated(f, log, first, me, a);
    } else if Stores(me, a) {
      ExactStored(f, log, first, me, a);
    }
  }

  lemma FreshAfterRead(f: bytes, me: Proc)
    requires WellFormed(f) && me.stage == Session(AtRead) && SessionPlaced(f, me, AtRead)
    ensures Fresh(Table(f), SessionNext(f, me, AtRead, ReadV(true)))
  {
    ReadOnGrid(f, me);
  }

  lemma FreshInSession(f: bytes, me: Proc, st: SessionStep, a: Action)
    requires me.stage == Session(st) && Fresh(Table(f), me) && CanStep(me, a) && (st.AtRead? ==> a.Keep?) && WellFormed(f)
    ensures !Stores(me, a) ==> Fresh(Table(f), SessionNext(f, me, st, a))
    ensures Stores(me, a) ==> SessionNext(f, me, st, a).stage == Session(WriteRewind(me.cursor))
  {
  }

  lemma FreshInLogin(f: bytes, me: Proc, st: LoginStep, a: Action, f': bytes)
    requires me.stage == Login(st) && CanStep(me, a)
    ensures Fresh(Table(f'), LoginNext(f, me, st, a))
  {
    var next := LoginNext(f, me, st, a).stage;
    assert !next.Session? || next == Session(Idle);
  }

  lemma OwnFresh(f: bytes, me: Proc, a: Action)
    requires WellFormed(f) && Placed(f, me) && Fresh(Table(f), me) && Suits(me, a)
    requires me.stage == Session(AtRead) && a.ReadV? ==> a.io
    ensures Fresh(Table(NextFile(f, me, a)), NextProc(f, me, a))
  {
    match me.stage {
      case Login(st) => FreshInLogin(f, me, st, a, NextFile(f, me, a));
      case Session(st) =>
        if st.AtRead? && a.ReadV? {
          FreshAfterRead(f, me);
        } else {
          FreshInSession(f, me, st, a);
        }
      case _ =>
    }
  }

  /** Nobody writes the record that another process has locked. */
  lemma LockedRecordStays(f: bytes, me: Proc, a: Action, other: Proc)
    requires WellFormed(f) && Placed(f, me) && KeyHeld(f, me) && Holding(me)
    requires Placed(f, other) && Holding(other) && Compatible(me.locks, other.locks) && Locks(other.stage)
    ensures var k := Index(Home(other));
            k < |Table(f)| <= |Table(NextFile(f, me, a))| && Table(NextFile(f, me, a))[k] == Table(f)[k]
  {
    TableStep(f, me, a);
    GridIsPos(Home(other));
    GridNext(f, Home(other));
    if Stores(me, a) {
      assert Home(me) in me.locks && Home(other) in other.locks;
      GridIsPos(Home(me));
      assert Index(Home(me)) != Index(Home(other));
    }
  }

  lemma OtherFresh(f: bytes, me: Proc, a: Action, other: Proc)
    requires WellFormed(f) && Placed(f, me) && KeyHeld(f, me) && Holding(me)
    requires Placed(f, other) && Holding(other) && Compatible(me.locks, other.locks) && Fresh(Table(f), other)
    ensures Fresh(Table(NextFile(f, me, a)), other)
  {
    if other.stage.Session? && Writing(other.stage.session) {
      LockedRecordStays(f, me, a, other);
    }
  }

  lemma FreshStep(s: System, first: seq<Record>, p: Pid, a: Action, q: Pid)
    requires ChargeInv(s, first) && Enabled(s, p, a) && Next(s, p, a).mutexHeld && Next(s, p, a).updatesRead && q in s.procs
    ensures q in Next(s, p, a).procs && Fresh(Table(Next(s, p, a).file), Next(s, p, a).procs[q])
  {
    var me := s.procs[p];
    assert Placed(s.file, me) && KeyHeld(s.file, me) && Holding(me) && Fresh(Table(s.file), me);
    if q == p {
      EnabledSuits(s, p, a);
      OwnFresh(s.file, me, a);
    } else {
      assert Placed(s.file, s.procs[q]) && Holding(s.procs[q]) && Fresh(Table(s.file), s.procs[q]);
      OtherFresh(s.file, me, a, s.procs[q]);
    }
  }

  lemma ChargeStep(s: System, first: seq<Record>, p: Pid, a: Action)
    requires ChargeInv(s, first) && Enabled(s, p, a)
    ensures ChargeInv(Next(s, p, a), first)
  {
    var s' := Next(s, p, a);
    InvStep(s, p, a);
    LockInvStep(s, p, a);
    if s'.mutexHeld && s'.updatesRead {
      assert Placed(s.file, s.procs[p]) && KeyHeld(s.file, s.procs[p]) && Fresh(Table(s.file), s.procs[p]);
      ExactStep(s.file, s.log, first, s.procs[p], a);
      forall q | q in s'.procs
        ensures Fresh(Table(s'.file), s'.procs[q])
      {
        FreshStep(s, first, p, a, q);
      }
    }
  }

  lemma {:induction false} ChargeAlongRun(s: System, first: seq<Record>, steps: seq<(Pid, Action)>)
    requires ChargeInv(s, first) && Runs(s, steps)
    ensures ChargeInv(After(s, steps), first)
    decreases |steps|
  {
    if |steps| != 0 {
      ChargeStep(s, first, steps[0].0, steps[0].1);
      ChargeAlongRun(Next(s, steps[0].0, steps[0].1), first, steps[1..]);
    }
  }

  /** In every run of logins, reads and writes on one table file in which the logins get the
  mutex and the re-reads succeed, every record is what it was at the start, or zero if it was
  created since, with exactly the charges stored at it: none is lost and none is overwritten. */
  lemma {:induction false} NoChargeLostInFile(s: System, steps: seq<(Pid, Action)>)
    requires Start(s) && Runs(s, steps) && After(s, steps).mutexHeld && After(s, steps).updatesRead
    ensures Exact(Table(After(s, steps).file), After(s, steps).log, Table(s.file))
  {
    StartIsSound(s);
    StartIsLocked(s);
    ChargeAlongRun(s, Table(s.file), steps);
  }

  // ---------------------------------------------------------------------------
  // Reads before commands

  /** The process has read its record and not given the lock up yet: what it has in memory is
  the record. */
  ghost predicate Current(f: bytes, me: Proc) {
    && me.stage.Session? && (me.stage.session.PeekRewind? || me.stage.session.AtSharedUnlock?)
    && Index(Home(me)) < |Table(f)| && me.mem == Table(f)[Index(Home(me))]
  }

  lemma OtherCurrent(f: bytes, me: Proc, a: Action, other: Proc)
    requires WellFormed(f) && Placed(f, me) && KeyHeld(f, me) && Holding(me)
    requires Placed(f, other) && Holding(other) && Compatible(me.locks, other.locks) && Current(f, other)
    ensures Current(NextFile(f, me, a), other)
  {
    LockedRecordStays(f, me, a, other);
  }

  lemma CurrentStep(s: System, p: Pid, q: Pid, a: Action)
    requires Inv(s) && LockInv(s) && s.mutexHeld && p in s.procs && Current(s.file, s.procs[p]) && Enabled(s, q, a) && q != p
    ensures Current(NextFile(s.file, s.procs[q], a), s.procs[p])
  {
    assert Placed(s.file, s.procs[q]) && KeyHeld(s.file, s.procs[q]) && Holding(s.procs[q]);
    assert Placed(s.file, s.procs[p]) && Holding(s.procs[p]);
    assert Compatible(s.procs[q].locks, s.procs[p].locks);
    OtherCurrent(s.file, s.procs[q], a, s.procs[p]);
  }

  /** None of the steps is p's own. */
  ghost predicate OthersOnly(steps: seq<(Pid, Action)>, p: Pid) { forall i :: 0 <= i < |steps| ==> steps[i].0 != p }

  lemma OthersOnlyRest(steps: seq<(Pid, Action)>, p: Pid)
    requires OthersOnly(steps, p) && |steps| > 0
    ensures steps[0].0 != p && OthersOnly(steps[1..], p)
  {
  }

  lemma {:induction false} HeldBefore(s: System, steps: seq<(Pid, Action)>)
    requires Inv(s) && Runs(s, steps) && After(s, steps).mutexHeld
    ensures s.mutexHeld
  {
    InvAlongRun(s, steps);
  }

  lemma {:induction false} CurrentAlongRun(s: System, p: Pid, steps: seq<(Pid, Action)>)
    requires Inv(s) && LockInv(s) && p in s.procs && Current(s.file, s.procs[p]) && Runs(s, steps) && After(s, steps).mutexHeld
    requires OthersOnly(steps, p)
    ensures p in After(s, steps).procs && Current(After(s, steps).file, After(s, steps).procs[p])
    decreases |steps|
  {
    if |steps| != 0 {
      OthersOnlyRest(steps, p);
      HeldBefore(s, steps);
      CurrentNext(s, p, steps[0].0, steps[0].1);
      CurrentAlongRun(Next(s, steps[0].0, steps[0].1), p, steps[1..]);
    }
  }

  lemma CurrentNext(s: System, p: Pid, q: Pid, a: Action)
    requires Inv(s) && LockInv(s) && s.mutexHeld && p in s.procs && Current(s.file, s.procs[p]) && Enabled(s, q, a) && q != p
    ensures var s' := Next(s, q, a); Inv(s') && LockInv(s') && p in s'.procs && Current(s'.file, s'.procs[p])
  {
    InvStep(s, q, a);
    LockInvStep(s, q, a);
    CurrentStep(s, p, q, a);
    OnlyOwn(s, q, a, p);
  }

  lemma OnlyOwn(s: System, q: Pid, a: Action, p: Pid)
    requires Enabled(s, q, a) && p in s.procs && p != q
    ensures p in Next(s, q, a).procs && Next(s, q, a).procs[p] == s.procs[p]
    ensures Next(s, q, a).file == NextFile(s.file, s.procs[q], a)
  {
  }

  lemma PeekReads(f: bytes, me: Proc)
    requires WellFormed(f) && me.stage == Session(PeekRead) && SessionPlaced(f, me, PeekRead)
    ensures Current(f, SessionNext(f, me, PeekRead, ReadV(true)))
  {
    ReadOnGrid(f, me);
  }

  /** A read before a command gives the session the record of the file, whole, and that is
  still the record when the read lock is given up, whatever the others do in between. */
  lemma {:induction false} PeekIsCurrent(s: System, p: Pid, steps: seq<(Pid, Action)>)
    requires Inv(s) && LockInv(s) && p in s.procs && s.procs[p].stage == Session(PeekRead)
    requires Runs(Next(s, p, ReadV(true)), steps) && After(Next(s, p, ReadV(true)), steps).mutexHeld && OthersOnly(steps, p)
    ensures var end := After(Next(s, p, ReadV(true)), steps); p in end.procs && Current(end.file, end.procs[p])
  {
    assert Placed(s.file, s.procs[p]);
    PeekReads(s.file, s.procs[p]);
    InvStep(s, p, ReadV(true));
    LockInvStep(s, p, ReadV(true));
    CurrentAlongRun(Next(s, p, ReadV(true)), p, steps);
  }
}
