/** Many session processes sharing one stored tally record.

Every process runs `quotatab_write` (lock, re-read, add, store, unlock) and
`quotatab_read` in small steps, interleaved with all the others in any order. The
operating system grants a write lock only when no other process holds a lock and a
read lock only when no other process holds a write lock.
*/
module SharedTally {
  import opened Optional
  import opened QuotaTypes
  import opened ClampedTally
  import opened TL = TableLock

  type Pid = nat

  datatype Pc =
    | Idle
      // quotatab_write
    | WLocking | NestedRLock | Rereading | NestedRUnlock | Adding | Storing | WUnlocking
      // quotatab_read
    | RLocking | Reading | RUnlocking

  /** `stale` records that the last re-read under the write lock failed while the
  process's copy differed from the stored record. */
  datatype Proc = Proc(pc: Pc, limit: Limit, locks: Locks, tally: Tally, inc: Increment, stale: bool)

  datatype Commit = Commit(who: Pid, limit: Limit, inc: Increment)

  datatype System = System(procs: map<Pid, Proc>, stored: Tally, log: seq<Commit>, lossy: bool)

  /** How the next step of a process ends. */
  datatype Action =
    | CallWrite(inc: Increment)
    | CallRead
    | Lock(granted: bool)
    | Read(done: bool)
    | Store(done: bool)
    | Tick

  /** The lock a step asks the operating system for, if it asks at all. */
  function Wanted(l: Locks, op: Op): OsLock {
    match op
    case RLock(_) => ReadLock
    case WLock(_) => WriteLock
    case RUnlock(_) => Unlocked
    case WUnlock(_) => if l.readers == 0 then Unlocked else ReadLock
  }

  predicate OsGrants(s: System, p: Pid, want: OsLock) {
    match want
    case Unlocked => true
    case ReadLock => forall q :: q in s.procs && q != p ==> s.procs[q].locks.held != WriteLock
    case WriteLock => forall q :: q in s.procs && q != p ==> s.procs[q].locks.held == Unlocked
  }

  function LockOp(pc: Pc, granted: bool): Op {
    match pc
    case WLocking => WLock(granted)
    case WUnlocking => WUnlock(granted)
    case RLocking => RLock(granted)
    case _ => RUnlock(granted)
  }

  predicate Enabled(s: System, p: Pid, a: Action) {
    && p in s.procs
    && var me := s.procs[p];
    match me.pc
    case Idle => a.CallWrite? || a.CallRead?
    case WLocking | WUnlocking | RLocking | RUnlocking =>
      && a.Lock?
      && (a.granted && NeedsOs(me.locks, LockOp(me.pc, true)) ==>
            OsGrants(s, p, Wanted(me.locks, LockOp(me.pc, true))))
    case Rereading | Reading => a.Read?
    case Storing => a.Store?
    case NestedRLock | NestedRUnlock | Adding => a.Tick?
  }

  function Next(s: System, p: Pid, a: Action): System
    requires Enabled(s, p, a)
  {
    var me := s.procs[p];
    match me.pc
    case Idle =>
      if a.CallRead? then s.(procs := s.procs[p := me.(pc := RLocking)])
      else s.(procs := s.procs[p := me.(pc := WLocking, inc := a.inc)])
    case WLocking =>
      var op := WLock(a.granted);
      s.(procs := s.procs[p := me.(locks := TL.Step(me.locks, op),
                                   pc := if Succeeds(me.locks, op) then NestedRLock else Idle)])
    case NestedRLock =>
      if me.limit.perSession then s.(procs := s.procs[p := me.(pc := Adding)])
      else s.(procs := s.procs[p := me.(locks := TL.Step(me.locks, RLock(true)), pc := Rereading)])
    case Rereading =>
      s.(procs := s.procs[p := me.(tally := if a.done then s.stored else me.tally,
                                   stale := !a.done && me.tally != s.stored,
                                   pc := NestedRUnlock)])
    case NestedRUnlock =>
      s.(procs := s.procs[p := me.(locks := TL.Step(me.locks, RUnlock(true)), pc := Adding)])
    case Adding =>
      s.(procs := s.procs[p := me.(tally := Charge(me.limit, me.tally, me.inc),
                                   pc := if me.limit.perSession then WUnlocking else Storing)])
    case Storing =>
      var procs' := s.procs[p := me.(pc := WUnlocking)];
      if a.done then
        System(procs', me.tally, s.log + [Commit(p, me.limit, me.inc)], s.lossy || me.stale)
      else s.(procs := procs')
    case WUnlocking =>
      s.(procs := s.procs[p := me.(locks := TL.Step(me.locks, WUnlock(a.granted)), pc := Idle)])
    case RLocking =>
      var op := RLock(a.granted);
      s.(procs := s.procs[p := me.(locks := TL.Step(me.locks, op),
                                   pc := if Succeeds(me.locks, op) then Reading else Idle)])
    case Reading =>
      s.(procs := s.procs[p := me.(tally := if a.done then s.stored else me.tally, pc := RUnlocking)])
    case RUnlocking =>
      s.(procs := s.procs[p := me.(locks := TL.Step(me.locks, RUnlock(a.granted)), pc := Idle)])
  }

  /** What the record would be if the committed writes had happened one after another. */
  function Replay(init: Tally, log: seq<Commit>): Tally {
    if log == [] then init
    else
      var last := log[|log| - 1];
      Charge(last.limit, Replay(init, log[..|log| - 1]), last.inc)
  }

  ghost predicate Start(s: System) {
    && s.log == [] && !s.lossy
    && forall p :: p in s.procs ==> s.procs[p].pc == Idle && s.procs[p].locks == Locks(0, 0, Unlocked)
  }

  predicate InWriteSection(pc: Pc) {
    pc in {NestedRLock, Rereading, NestedRUnlock, Adding, Storing, WUnlocking}
  }

  ghost predicate LocksSound(s: System) {
    && (forall p :: p in s.procs ==>
          Consistent(s.procs[p].locks) && (InWriteSection(s.procs[p].pc) ==> s.procs[p].locks.writers > 0))
    && (forall p, q :: p in s.procs && q in s.procs && p != q && s.procs[p].locks.held == WriteLock ==>
          s.procs[q].locks.held == Unlocked)
  }

  /** What a process in its write section knows about the stored record. */
  ghost predicate KnowsRecord(s: System, p: Pid)
    requires p in s.procs
  {
    var me := s.procs[p];
    me.limit.perSession || me.stale ||
    (&& (me.pc == NestedRUnlock || me.pc == Adding ==> me.tally == s.stored)
     && (me.pc == Storing ==> me.tally == Charge(me.limit, s.stored, me.inc)))
  }

  /** A process reading the record holds a lock on it. */
  ghost predicate ReadersHold(s: System) {
    forall p :: p in s.procs && s.procs[p].pc in {Reading, RUnlocking} ==> s.procs[p].locks.readers > 0
  }

  ghost predicate Inv(s: System, init: Tally) {
    && LocksSound(s) && ReadersHold(s)
    && (forall p :: p in s.procs ==> KnowsRecord(s, p))
    && (forall p :: p in s.procs && s.procs[p].pc in {Rereading, NestedRUnlock, Storing} ==> !s.procs[p].limit.perSession)
    && (!s.lossy ==> s.stored == Replay(init, s.log))
  }

  /** One step of p moves only p's own lock, and only as the operating system allows. */
  lemma OwnLockStep(s: System, p: Pid, a: Action)
    requires LocksSound(s) && Enabled(s, p, a)
    ensures var me := s.procs[p];
            var me' := Next(s, p, a).procs[p];
            && Consistent(me'.locks)
            && (InWriteSection(me'.pc) ==> me'.locks.writers > 0)
            && (me'.locks.held == me.locks.held || OsGrants(s, p, me'.locks.held))
  {
    assert Consistent(s.procs[p].locks);
  }

  lemma LocksStaySound(s: System, p: Pid, a: Action)
    requires LocksSound(s) && Enabled(s, p, a)
    ensures LocksSound(Next(s, p, a))
  {
    var s' := Next(s, p, a);
    OwnLockStep(s, p, a);
    OthersUntouched(s, p, a);
    forall q, r | q in s'.procs && r in s'.procs && q != r && s'.procs[q].locks.held == WriteLock
      ensures s'.procs[r].locks.held == Unlocked
    {
      if q != p && r != p {
        assert s.procs[q].locks.held == WriteLock;
      } else if q == p {
        assert s'.procs[r] == s.procs[r];
      } else {
        assert s'.procs[q] == s.procs[q];
      }
    }
  }

  lemma OthersUntouched(s: System, p: Pid, a: Action)
    requires Enabled(s, p, a)
    ensures Next(s, p, a).procs.Keys == s.procs.Keys
    ensures forall q :: q in s.procs && q != p ==> Next(s, p, a).procs[q] == s.procs[q]
    ensures s.procs[p].pc != Storing ==>
              Next(s, p, a).stored == s.stored && Next(s, p, a).log == s.log && Next(s, p, a).lossy == s.lossy
  {
  }

  lemma RecordStaysKnown(s: System, p: Pid, a: Action, q: Pid)
    requires LocksSound(s) && Enabled(s, p, a) && q in s.procs
    requires KnowsRecord(s, p) && KnowsRecord(s, q)
    ensures KnowsRecord(Next(s, p, a), q)
  {
    OthersUntouched(s, p, a);
    if q != p && s.procs[p].pc == Storing {
      assert Consistent(s.procs[p].locks) && Consistent(s.procs[q].locks);
    }
  }

  lemma InvStep(s: System, init: Tally, p: Pid, a: Action)
    requires Inv(s, init) && Enabled(s, p, a)
    ensures Inv(Next(s, p, a), init)
  {
    var s' := Next(s, p, a);
    LocksStaySound(s, p, a);
    forall q | q in s'.procs
      ensures KnowsRecord(s', q)
    {
      RecordStaysKnown(s, p, a, q);
    }
    forall q | q in s'.procs && s'.procs[q].pc in {Rereading, NestedRUnlock, Storing}
      ensures !s'.procs[q].limit.perSession
    {
      StoresAreShared(s, p, a, q);
    }
    ReadersStepHold(s, p, a);
    LogStaysFaithful(s, init, p, a);
  }

  lemma ReadersStepHold(s: System, p: Pid, a: Action)
    requires ReadersHold(s) && Enabled(s, p, a)
    ensures ReadersHold(Next(s, p, a))
  {
    OthersUntouched(s, p, a);
  }

  /** A per-session tally is never re-read or stored. */
  lemma StoresAreShared(s: System, p: Pid, a: Action, q: Pid)
    requires Enabled(s, p, a) && q in s.procs
    requires s.procs[q].pc in {Rereading, NestedRUnlock, Storing} ==> !s.procs[q].limit.perSession
    ensures q in Next(s, p, a).procs
    ensures Next(s, p, a).procs[q].pc in {Rereading, NestedRUnlock, Storing} ==> !Next(s, p, a).procs[q].limit.perSession
  {
    OthersUntouched(s, p, a);
  }

  /** Only a store touches the record and the log, and it touches both. */
  lemma {:induction false} LogStaysFaithful(s: System, init: Tally, p: Pid, a: Action)
    requires Inv(s, init) && Enabled(s, p, a)
    ensures !Next(s, p, a).lossy ==> Next(s, p, a).stored == Replay(init, Next(s, p, a).log)
  {
    var s' := Next(s, p, a);
    if s.procs[p].pc == Storing && a.done {
      assert s'.log[..|s'.log| - 1] == s.log;
    }
  }

  predicate Runs(s: System, steps: seq<(Pid, Action)>)
    decreases steps
  {
    steps == [] || (Enabled(s, steps[0].0, steps[0].1) && Runs(Next(s, steps[0].0, steps[0].1), steps[1..]))
  }

  function After(s: System, steps: seq<(Pid, Action)>): System
    requires Runs(s, steps)
    decreases steps
  {
    if steps == [] then s else After(Next(s, steps[0].0, steps[0].1), steps[1..])
  }

  lemma {:induction false} InvAlongRun(s: System, init: Tally, steps: seq<(Pid, Action)>)
    requires Inv(s, init) && Runs(s, steps)
    ensures Inv(After(s, steps), init)
    decreases steps
  {
    if steps != [] {
      InvStep(s, init, steps[0].0, steps[0].1);
      InvAlongRun(Next(s, steps[0].0, steps[0].1), init, steps[1..]);
    }
  }

  /** No update is lost: in every interleaving the stored record is the initial record
  charged with the committed increments one after another, unless some process stored
  after a failed re-read of a record that differed from its own copy. */
  lemma {:induction false} NoUpdateIsLost(s: System, steps: seq<(Pid, Action)>)
    requires Start(s) && Runs(s, steps)
    ensures var end := After(s, steps);
            && (!end.lossy ==> end.stored == Replay(s.stored, end.log))
            && LogIsAsked(s, end.log, Asked(steps))
  {
    InvAlongRun(s, s.stored, steps);
    LogIsWhatWasAsked(s, steps);
  }

  // ---------------------------------------------------------------------------
  // What was asked for is what is committed

  /** The increment p last asked to write, from the steps alone. */
  function LastCall(steps: seq<(Pid, Action)>, p: Pid): Option<Increment> {
    if |steps| == 0 then None
    else
      var (q, a) := steps[|steps| - 1];
      if q == p && a.CallWrite? then Some(a.inc) else LastCall(steps[..|steps| - 1], p)
  }

  /** The writes asked for and then stored, in the order of their stores, from the steps
  alone: who asked, and for what. */
  function Asked(steps: seq<(Pid, Action)>): seq<(Pid, Increment)> {
    if |steps| == 0 then []
    else
      var (p, a) := steps[|steps| - 1];
      var past := steps[..|steps| - 1];
      Asked(past) + if a.Store? && a.done && LastCall(past, p).Some? then [(p, LastCall(past, p).value)] else []
  }

  /** The record after these writes one after another, each under its process's limit. */
  function Served(s: System, asked: seq<(Pid, Increment)>): Tally
    requires forall i :: 0 <= i < |asked| ==> asked[i].0 in s.procs
  {
    if |asked| == 0 then s.stored
    else
      var (p, inc) := asked[|asked| - 1];
      Charge(s.procs[p].limit, Served(s, asked[..|asked| - 1]), inc)
  }

  ghost predicate LogIsAsked(s: System, log: seq<Commit>, asked: seq<(Pid, Increment)>) {
    && |log| == |asked|
    && forall i :: 0 <= i < |log| ==>
         asked[i].0 in s.procs && log[i] == Commit(asked[i].0, s.procs[asked[i].0].limit, asked[i].1)
  }

  predicate InWrite(pc: Pc) { pc == WLocking || InWriteSection(pc) }

  /** A process in a write has the increment it last asked for, and its own limit. */
  ghost predicate Remembers(s: System, steps: seq<(Pid, Action)>, p: Pid, me: Proc)
    requires p in s.procs
  {
    me.limit == s.procs[p].limit && (InWrite(me.pc) ==> LastCall(steps, p) == Some(me.inc))
  }

  ghost predicate Traced(s: System, steps: seq<(Pid, Action)>, t: System) {
    && t.procs.Keys == s.procs.Keys
    && (forall p :: p in s.procs ==> Remembers(s, steps, p, t.procs[p]))
    && LogIsAsked(s, t.log, Asked(steps))
  }

  lemma OwnRemembers(t: System, p: Pid, a: Action)
    requires Enabled(t, p, a)
    ensures var me, me' := t.procs[p], Next(t, p, a).procs[p];
            && me'.limit == me.limit
            && (InWrite(me'.pc) ==> if a.CallWrite? then me'.inc == a.inc else InWrite(me.pc) && me'.inc == me.inc)
            && (a.CallWrite? ==> me.pc == Idle)
            && (a.Store? ==> me.pc == Storing)
  {
  }

  lemma LogStep(t: System, p: Pid, a: Action)
    requires Enabled(t, p, a)
    ensures Next(t, p, a).log == t.log + if a.Store? && a.done then [Commit(p, t.procs[p].limit, t.procs[p].inc)] else []
  {
  }

  lemma {:induction false} TracedStep(s: System, steps: seq<(Pid, Action)>, t: System, p: Pid, a: Action)
    requires Traced(s, steps, t) && Enabled(t, p, a)
    ensures Traced(s, steps + [(p, a)], Next(t, p, a))
  {
    var all, t' := steps + [(p, a)], Next(t, p, a);
    assert all[..|all| - 1] == steps;
    OwnRemembers(t, p, a);
    OthersUntouched(t, p, a);
    LogStep(t, p, a);
    assert Remembers(s, steps, p, t.procs[p]);
    forall q | q in s.procs
      ensures Remembers(s, all, q, t'.procs[q])
    {
      assert Remembers(s, steps, q, t.procs[q]);
    }
  }

  lemma {:induction false} LastStep(s: System, steps: seq<(Pid, Action)>)
    requires Runs(s, steps) && |steps| > 0
    ensures var n := |steps| - 1;
            && Runs(s, steps[..n]) && Enabled(After(s, steps[..n]), steps[n].0, steps[n].1)
            && After(s, steps) == Next(After(s, steps[..n]), steps[n].0, steps[n].1)
    decreases steps
  {
    var n := |steps| - 1;
    if n > 0 {
      LastStep(Next(s, steps[0].0, steps[0].1), steps[1..]);
      assert steps[1..][..n - 1] == steps[..n][1..];
    }
  }

  lemma {:induction false} TracedAlongRun(s: System, steps: seq<(Pid, Action)>)
    requires Start(s) && Runs(s, steps)
    ensures Traced(s, steps, After(s, steps))
  {
    if |steps| == 0 {
      TracedAtStart(s, steps);
    } else {
      var n := |steps| - 1;
      LastStep(s, steps);
      TracedAlongRun(s, steps[..n]);
      TracedStep(s, steps[..n], After(s, steps[..n]), steps[n].0, steps[n].1);
      FrontAndLast(steps);
    }
  }

  lemma FrontAndLast(steps: seq<(Pid, Action)>)
    requires |steps| > 0
    ensures steps[..|steps| - 1] + [(steps[|steps| - 1].0, steps[|steps| - 1].1)] == steps
  {
  }

  lemma TracedAtStart(s: System, none: seq<(Pid, Action)>)
    requires Start(s) && |none| == 0
    ensures Traced(s, none, s)
  {
  }

  /** In every interleaving the log is, in the order of the stores, the increments that were
  asked for by the calls whose store came through, each under its caller's limit. */
  lemma {:induction false} LogIsWhatWasAsked(s: System, steps: seq<(Pid, Action)>)
    requires Start(s) && Runs(s, steps)
    ensures LogIsAsked(s, After(s, steps).log, Asked(steps))
  {
    TracedAlongRun(s, steps);
  }

  lemma {:induction false} ServedIsReplay(s: System, log: seq<Commit>, asked: seq<(Pid, Increment)>)
    requires LogIsAsked(s, log, asked)
    ensures Replay(s.stored, log) == Served(s, asked)
  {
    if |log| > 0 {
      var n := |log| - 1;
      ServedIsReplay(s, log[..n], asked[..n]);
      assert log[n] == Commit(asked[n].0, s.procs[asked[n].0].limit, asked[n].1);
    }
  }

  /** No process is about to store over a failed re-read. */
  ghost predicate AllFresh(s: System) {
    && !s.lossy
    && forall p :: p in s.procs && s.procs[p].pc in {NestedRUnlock, Adding, Storing} ==>
         !s.procs[p].stale || s.procs[p].limit.perSession
  }

  lemma FreshStep(s: System, init: Tally, p: Pid, a: Action)
    requires Inv(s, init) && AllFresh(s) && Enabled(s, p, a) && (a.Read? ==> a.done)
    ensures AllFresh(Next(s, p, a))
  {
    OthersUntouched(s, p, a);
  }

  lemma {:induction false} FreshAlongRun(s: System, init: Tally, steps: seq<(Pid, Action)>)
    requires Inv(s, init) && AllFresh(s) && Runs(s, steps)
    requires forall i :: 0 <= i < |steps| && steps[i].1.Read? ==> steps[i].1.done
    ensures AllFresh(After(s, steps))
    decreases steps
  {
    if steps != [] {
      var s' := Next(s, steps[0].0, steps[0].1);
      InvStep(s, init, steps[0].0, steps[0].1);
      FreshStep(s, init, steps[0].0, steps[0].1);
      FreshAlongRun(s', init, steps[1..]);
    }
  }

  /** While reads succeed, nothing is lost in any interleaving, whatever locks are refused
  and whatever stores fail: the record is the initial one charged with the increments that
  the calls asked for, one after another in the order of their stores. */
  lemma {:induction false} GoodReadsLoseNothing(s: System, steps: seq<(Pid, Action)>)
    requires Start(s) && Runs(s, steps)
    requires forall i :: 0 <= i < |steps| && steps[i].1.Read? ==> steps[i].1.done
    ensures forall i :: 0 <= i < |Asked(steps)| ==> Asked(steps)[i].0 in s.procs
    ensures After(s, steps).stored == Served(s, Asked(steps)) == Replay(s.stored, After(s, steps).log)
  {
    FreshAlongRun(s, s.stored, steps);
    NoUpdateIsLost(s, steps);
    LogIsWhatWasAsked(s, steps);
    ServedIsReplay(s, After(s, steps).log, Asked(steps));
  }

  /** Two processes are never inside their write sections together. */
  lemma {:induction false} WriteSectionsExclude(s: System, steps: seq<(Pid, Action)>, p: Pid, q: Pid)
    requires Start(s) && Runs(s, steps)
    requires p != q && p in After(s, steps).procs && q in After(s, steps).procs
    ensures !(InWriteSection(After(s, steps).procs[p].pc) && InWriteSection(After(s, steps).procs[q].pc))
  {
    InvAlongRun(s, s.stored, steps);
  }

  /** Nor is one reading the record while another is inside its write section. */
  lemma {:induction false} ReadsExcludeWrites(s: System, steps: seq<(Pid, Action)>, p: Pid, q: Pid)
    requires Start(s) && Runs(s, steps)
    requires p != q && p in After(s, steps).procs && q in After(s, steps).procs
    ensures !(After(s, steps).procs[p].pc in {Reading, RUnlocking} && InWriteSection(After(s, steps).procs[q].pc))
  {
    InvAlongRun(s, s.stored, steps);
    var end := After(s, steps);
    assert Consistent(end.procs[p].locks) && Consistent(end.procs[q].locks);
  }

  // ---------------------------------------------------------------------------
  // No lock outlives its call

  /** The lock a process has at each point of its calls. */
  function LocksAt(pc: Pc): Locks {
    match pc
    case Idle | WLocking | RLocking => Locks(0, 0, Unlocked)
    case NestedRLock | Adding | Storing | WUnlocking => Locks(0, 1, WriteLock)
    case Rereading | NestedRUnlock => Locks(1, 1, WriteLock)
    case Reading | RUnlocking => Locks(1, 0, ReadLock)
  }

  ghost predicate ExactLocks(s: System) { forall p :: p in s.procs ==> s.procs[p].locks == LocksAt(s.procs[p].pc) }

  /** The unlock calls of the run succeed; lock calls may be refused at will. */
  ghost predicate UnlocksWork(s: System, steps: seq<(Pid, Action)>)
    requires Runs(s, steps)
    decreases steps
  {
    steps == [] ||
    (var p, a := steps[0].0, steps[0].1;
     && (s.procs[p].pc in {WUnlocking, RUnlocking} ==> a.granted)
     && UnlocksWork(Next(s, p, a), steps[1..]))
  }

  lemma OwnLocksExact(s: System, p: Pid, a: Action)
    requires Enabled(s, p, a) && s.procs[p].locks == LocksAt(s.procs[p].pc)
    requires s.procs[p].pc in {WUnlocking, RUnlocking} ==> a.granted
    ensures Next(s, p, a).procs[p].locks == LocksAt(Next(s, p, a).procs[p].pc)
  {
  }

  lemma ExactLocksStep(s: System, p: Pid, a: Action)
    requires ExactLocks(s) && Enabled(s, p, a) && (s.procs[p].pc in {WUnlocking, RUnlocking} ==> a.granted)
    ensures ExactLocks(Next(s, p, a))
  {
    OthersUntouched(s, p, a);
    OwnLocksExact(s, p, a);
    var s' := Next(s, p, a);
    forall q | q in s'.procs
      ensures s'.procs[q].locks == LocksAt(s'.procs[q].pc)
    {
      if q != p {
        assert s'.procs[q] == s.procs[q];
      }
    }
  }

  /** While the unlock calls succeed, a process holds exactly the lock that the point it is at
  calls for, in every interleaving; between its calls it holds none and has counted none. */
  lemma {:induction false} NoLockOutlivesItsCall(s: System, steps: seq<(Pid, Action)>)
    requires ExactLocks(s) && Runs(s, steps) && UnlocksWork(s, steps)
    ensures ExactLocks(After(s, steps))
    decreases steps
  {
    if steps != [] {
      ExactLocksStep(s, steps[0].0, steps[0].1);
      NoLockOutlivesItsCall(Next(s, steps[0].0, steps[0].1), steps[1..]);
    }
  }

  /** A read before a command that succeeds gives the process the record as it is, and as it
  still is when the read lock is given up, whatever the others do in between. */
  lemma {:induction false} ReadIsCurrent(s: System, init: Tally, p: Pid, steps: seq<(Pid, Action)>)
    requires Inv(s, init) && p in s.procs && s.procs[p].pc == Reading
    requires Runs(Next(s, p, Read(true)), steps) && forall i :: 0 <= i < |steps| ==> steps[i].0 != p
    ensures var end := After(Next(s, p, Read(true)), steps);
            p in end.procs && end.procs[p].tally == end.stored && end.procs[p].pc == RUnlocking
  {
    InvStep(s, init, p, Read(true));
    StaysCurrent(Next(s, p, Read(true)), init, p, steps);
  }

  lemma {:induction false} StaysCurrent(s: System, init: Tally, p: Pid, steps: seq<(Pid, Action)>)
    requires Inv(s, init) && p in s.procs && s.procs[p].pc == RUnlocking && s.procs[p].tally == s.stored
    requires Runs(s, steps) && forall i :: 0 <= i < |steps| ==> steps[i].0 != p
    ensures p in After(s, steps).procs && After(s, steps).procs[p] == s.procs[p] && After(s, steps).stored == s.stored
    decreases steps
  {
    if steps != [] {
      var q, a := steps[0].0, steps[0].1;
      assert Consistent(s.procs[p].locks) && Consistent(s.procs[q].locks);
      OthersUntouched(s, q, a);
      InvStep(s, init, q, a);
      StaysCurrent(Next(s, q, a), init, p, steps[1..]);
    }
  }

  lemma Prepend(s: System, p: Pid, a: Action, s': System, rest: seq<(Pid, Action)>, end: System)
    returns (steps: seq<(Pid, Action)>)
    requires Enabled(s, p, a) && Next(s, p, a) == s'
    requires Runs(s', rest) && After(s', rest) == end
    ensures Runs(s, steps) && After(s, steps) == end
  {
    steps := [(p, a)] + rest;
    assert steps[1..] == rest;
  }

  /** One process alone on a record that stands at ten while its own copy says zero. */
  function Lone(me: Proc): System { System(map[0 := me], Tally(10.0, 0.0, 0.0, 0, 0, 0), [], false) }

  function Uploader(pc: Pc, locks: Locks, stale: bool): Proc {
    Proc(pc, Limit(false, Hard, 100.0, 0.0, 0.0, 0, 0, 0), locks, Tally(0.0, 0.0, 0.0, 0, 0, 0),
         Increment(5.0, 0.0, 0.0, 0, 0, 0), stale)
  }

  lemma LoneStep(me: Proc, a: Action, me': Proc, rest: seq<(Pid, Action)>, end: System) returns (steps: seq<(Pid, Action)>)
    requires Enabled(Lone(me), 0, a) && me.pc != Storing && Next(Lone(me), 0, a).procs[0] == me'
    requires Runs(Lone(me'), rest) && After(Lone(me'), rest) == end
    ensures Runs(Lone(me), steps) && After(Lone(me), steps) == end
  {
    OthersUntouched(Lone(me), 0, a);
    assert Next(Lone(me), 0, a).procs == Lone(me').procs;
    steps := Prepend(Lone(me), 0, a, Lone(me'), rest, end);
  }

  lemma LoneStore() returns (steps: seq<(Pid, Action)>, end: System)
    ensures var me := Uploader(Adding, Locks(0, 1, WriteLock), true);
            Runs(Lone(me), steps) && After(Lone(me), steps) == end
    ensures end.stored.bytesIn == 5.0 && Replay(Tally(10.0, 0.0, 0.0, 0, 0, 0), end.log).bytesIn == 15.0
  {
    var me := Uploader(Adding, Locks(0, 1, WriteLock), true);
    var me' := me.(pc := Storing, tally := Tally(5.0, 0.0, 0.0, 0, 0, 0));
    end := Next(Lone(me'), 0, Store(true));
    assert end.log == [Commit(0, me.limit, me.inc)] && end.log[..0] == [];
    steps := Prepend(Lone(me'), 0, Store(true), end, [], end);
    steps := LoneStep(me, Tick, me', steps, end);
  }

  lemma LoneReread() returns (steps: seq<(Pid, Action)>, end: System)
    ensures var me := Uploader(NestedRLock, Locks(0, 1, WriteLock), false);
            Runs(Lone(me), steps) && After(Lone(me), steps) == end
    ensures end.stored.bytesIn == 5.0 && Replay(Tally(10.0, 0.0, 0.0, 0, 0, 0), end.log).bytesIn == 15.0
  {
    var p2 := Uploader(NestedRLock, Locks(0, 1, WriteLock), false);
    var p3 := Uploader(Rereading, Locks(1, 1, WriteLock), false);
    var p4 := Uploader(NestedRUnlock, Locks(1, 1, WriteLock), true);
    steps, end := LoneStore();
    steps := LoneStep(p4, Tick, Uploader(Adding, Locks(0, 1, WriteLock), true), steps, end);
    steps := LoneStep(p3, Read(false), p4, steps, end);
    steps := LoneStep(p2, Tick, p3, steps, end);
  }

  /** The re-read matters: a failed one is logged and ignored by the source, and then a
  stale copy overwrites the record. */
  lemma FailedRereadLosesUpdates()
    ensures exists s: System, steps: seq<(Pid, Action)> ::
              && Start(s) && Runs(s, steps)
              && After(s, steps).stored != Replay(s.stored, After(s, steps).log)
  {
    var p0 := Uploader(Idle, Locks(0, 0, Unlocked), false);
    var p1 := Uploader(WLocking, Locks(0, 0, Unlocked), false);
    var p2 := Uploader(NestedRLock, Locks(0, 1, WriteLock), false);
    var r, end := LoneReread();
    r := LoneStep(p1, Lock(true), p2, r, end);
    r := LoneStep(p0, CallWrite(p0.inc), p1, r, end);
    assert Start(Lone(p0));
  }

  // ---------------------------------------------------------------------------
  // Where exactly a loss happens

  /** p is past its re-read, with `base` as the tally it goes on with; nobody has touched the
  record or the log since. */
  ghost predicate Carries(s: System, p: Pid, base: Tally, me: Proc, stored: Tally, log: seq<Commit>) {
    && p in s.procs && s.procs[p].limit == me.limit && s.procs[p].inc == me.inc && !me.limit.perSession
    && s.procs[p].pc in {NestedRUnlock, Adding, Storing}
    && s.procs[p].tally == (if s.procs[p].pc == Storing then Charge(me.limit, base, me.inc) else base)
    && s.stored == stored && s.log == log
  }

  lemma CarriesStep(s: System, init: Tally, p: Pid, base: Tally, me: Proc, stored: Tally, log: seq<Commit>, q: Pid, a: Action)
    requires Inv(s, init) && Carries(s, p, base, me, stored, log) && Enabled(s, q, a)
    requires q == p ==> a.Tick?
    ensures Carries(Next(s, q, a), p, base, me, stored, log)
  {
    OthersUntouched(s, q, a);
    assert Consistent(s.procs[p].locks) && Consistent(s.procs[q].locks);
  }

  lemma {:induction false} CarriesAlongRun(s: System, init: Tally, p: Pid, base: Tally, me: Proc, stored: Tally,
                                           log: seq<Commit>, steps: seq<(Pid, Action)>)
    requires Inv(s, init) && Carries(s, p, base, me, stored, log) && Runs(s, steps) && OnlyTicks(p, steps)
    ensures Inv(After(s, steps), init) && Carries(After(s, steps), p, base, me, stored, log)
    decreases steps
  {
    if steps != [] {
      InvStep(s, init, steps[0].0, steps[0].1);
      CarriesStep(s, init, p, base, me, stored, log, steps[0].0, steps[0].1);
      CarriesAlongRun(Next(s, steps[0].0, steps[0].1), init, p, base, me, stored, log, steps[1..]);
    }
  }

  ghost predicate OnlyTicks(p: Pid, steps: seq<(Pid, Action)>) {
    forall i :: 0 <= i < |steps| && steps[i].0 == p ==> steps[i].1.Tick?
  }

  /** From its re-read, which ends as `done` says, p comes to its store after these steps of
  its own and of all the others. */
  ghost predicate ComesToStore(s: System, p: Pid, done: bool, steps: seq<(Pid, Action)>) {
    && p in s.procs && s.procs[p].pc == Rereading
    && Runs(Next(s, p, Read(done)), steps) && OnlyTicks(p, steps)
    && p in After(Next(s, p, Read(done)), steps).procs
    && After(Next(s, p, Read(done)), steps).procs[p].pc == Storing
  }

  /** The store then made keeps the record equal to the replay of the log. */
  ghost predicate StoresFaithfully(s: System, init: Tally, p: Pid, done: bool, steps: seq<(Pid, Action)>)
    requires ComesToStore(s, p, done, steps)
  {
    var end := Next(After(Next(s, p, Read(done)), steps), p, Store(true));
    end.stored == Replay(init, end.log)
  }

  lemma StoreAfterReread(s: System, init: Tally, p: Pid, done: bool, steps: seq<(Pid, Action)>)
    requires Inv(s, init) && !s.lossy && ComesToStore(s, p, done, steps)
    ensures var me := s.procs[p];
            StoresFaithfully(s, init, p, done, steps)
            <==> Charge(me.limit, if done then s.stored else me.tally, me.inc) == Charge(me.limit, s.stored, me.inc)
  {
    var me := s.procs[p];
    var base := if done then s.stored else me.tally;
    InvStep(s, init, p, Read(done));
    CarriesAlongRun(Next(s, p, Read(done)), init, p, base, me, s.stored, s.log, steps);
    var u := After(Next(s, p, Read(done)), steps);
    var end := Next(u, p, Store(true));
    assert end.log[..|end.log| - 1] == s.log;
  }

  /** Two tallies that every increment makes equal are equal already. */
  lemma ChargeSeparates(l: Limit, a: Tally, b: Tally)
    requires NonNegative(a) && NonNegative(b) && a != b
    ensures Charge(l, a, Increment(0.0, 0.0, 0.0, 0, 0, 0)) != Charge(l, b, Increment(0.0, 0.0, 0.0, 0, 0, 0))
  {
  }

  function WithInc(s: System, p: Pid, i: Increment): System
    requires p in s.procs
  {
    s.(procs := s.procs[p := s.procs[p].(inc := i)])
  }

  lemma WithIncKeepsInv(s: System, init: Tally, p: Pid, i: Increment)
    requires Inv(s, init) && p in s.procs && s.procs[p].pc == Rereading
    ensures Inv(WithInc(s, p, i), init)
  {
    var t := WithInc(s, p, i);
    forall q | q in t.procs
      ensures KnowsRecord(t, q)
    {
      assert KnowsRecord(s, q);
    }
  }

  lemma TickFromUnlock(s: System, p: Pid)
    requires p in s.procs && s.procs[p].pc == NestedRUnlock
    ensures Enabled(s, p, Tick) && p in Next(s, p, Tick).procs
    ensures Next(s, p, Tick).procs[p].pc == Adding && Next(s, p, Tick).procs[p].limit == s.procs[p].limit
  {
  }

  lemma TickFromAdding(s: System, p: Pid)
    requires p in s.procs && s.procs[p].pc == Adding && !s.procs[p].limit.perSession
    ensures Enabled(s, p, Tick) && p in Next(s, p, Tick).procs && Next(s, p, Tick).procs[p].pc == Storing
  {
  }

  lemma {:induction false} TwoSteps(s: System, p: Pid, a: Action, b: Action)
    requires Enabled(s, p, a) && Enabled(Next(s, p, a), p, b)
    ensures Runs(s, [(p, a), (p, b)]) && After(s, [(p, a), (p, b)]) == Next(Next(s, p, a), p, b)
  {
    var steps: seq<(Pid, Action)> := [(p, a), (p, b)];
    assert steps[1..] == [(p, b)] && steps[1..][1..] == [];
    var s1, s2 := Next(s, p, a), Next(Next(s, p, a), p, b);
    assert Runs(s2, []) && After(s2, []) == s2;
    assert Runs(s1, steps[1..]) && After(s1, steps[1..]) == s2;
  }

  lemma AloneToStore(s: System, p: Pid, done: bool) returns (steps: seq<(Pid, Action)>)
    requires p in s.procs && s.procs[p].pc == Rereading && !s.procs[p].limit.perSession
    ensures ComesToStore(s, p, done, steps)
  {
    var s1 := Next(s, p, Read(done));
    assert p in s1.procs && s1.procs[p].pc == NestedRUnlock && !s1.procs[p].limit.perSession;
    TickFromUnlock(s1, p);
    TickFromAdding(Next(s1, p, Tick), p);
    TwoSteps(s1, p, Tick, Tick);
    steps := [(p, Tick), (p, Tick)];
  }

  /** A process at its re-read: whatever it has to add and however the others interleave, its
  store loses nothing, if and only if the re-read succeeds or its copy equals the record. */
  lemma StoreIsFaithfulIff(s: System, init: Tally, p: Pid, done: bool)
    requires Inv(s, init) && !s.lossy && p in s.procs && s.procs[p].pc == Rereading
    requires NonNegative(s.procs[p].tally) && NonNegative(s.stored)
    ensures (forall i: Increment, steps: seq<(Pid, Action)> | ComesToStore(WithInc(s, p, i), p, done, steps) ::
               StoresFaithfully(WithInc(s, p, i), init, p, done, steps))
            <==> done || s.procs[p].tally == s.stored
  {
    forall i: Increment, steps | (done || s.procs[p].tally == s.stored) && ComesToStore(WithInc(s, p, i), p, done, steps)
      ensures StoresFaithfully(WithInc(s, p, i), init, p, done, steps)
    {
      WithIncKeepsInv(s, init, p, i);
      StoreAfterReread(WithInc(s, p, i), init, p, done, steps);
    }
    if !done && s.procs[p].tally != s.stored {
      var none := Increment(0.0, 0.0, 0.0, 0, 0, 0);
      ChargeSeparates(s.procs[p].limit, s.procs[p].tally, s.stored);
      WithIncKeepsInv(s, init, p, none);
      var steps := AloneToStore(WithInc(s, p, none), p, done);
      StoreAfterReread(WithInc(s, p, none), init, p, done, steps);
    }
  }

  /** The increments of one column. */
  function IncsOf(log: seq<Commit>, c: Counter): seq<real> {
    seq(|log|, i requires 0 <= i < |log| => IncOf(log[i].inc, c))
  }

  lemma ChargeColumn(l: Limit, t: Tally, i: Increment, c: Counter)
    requires CountsBytes(c)
    ensures UsedOf(Charge(l, t, i), c) == AddBytes(AvailOf(l, c), UsedOf(t, c), IncOf(i, c))
  {
  }

  lemma {:induction false} ReplayColumn(init: Tally, log: seq<Commit>, c: Counter, avail: real)
    requires CountsBytes(c) && forall i :: 0 <= i < |log| ==> AvailOf(log[i].limit, c) == avail
    ensures UsedOf(Replay(init, log), c) == FileColumn(avail, UsedOf(init, c), IncsOf(log, c))
  {
    if log != [] {
      var rest, last := log[..|log| - 1], log[|log| - 1];
      ReplayColumn(init, rest, c, avail);
      assert IncsOf(log, c)[..|log| - 1] == IncsOf(rest, c);
      ChargeColumn(last.limit, Replay(init, rest), last.inc, c);
    }
  }

  /** Put together: whatever the interleaving, each byte column of a shared record is the plain
  sum of that column's committed increments minus that sum's lowest point. */
  lemma {:induction false} SharedColumnIsReflectedWalk(s: System, steps: seq<(Pid, Action)>, c: Counter, avail: real, low: real)
    requires Start(s) && Runs(s, steps) && !After(s, steps).lossy
    requires CountsBytes(c) && avail > 0.0 && UsedOf(s.stored, c) >= 0.0
    requires forall i :: 0 <= i < |After(s, steps).log| ==> AvailOf(After(s, steps).log[i].limit, c) == avail
    requires IsLowest(UsedOf(s.stored, c), IncsOf(After(s, steps).log, c), low)
    ensures var incs := IncsOf(After(s, steps).log, c);
            UsedOf(After(s, steps).stored, c) == Level(UsedOf(s.stored, c), incs, |incs|) - low
  {
    var log := After(s, steps).log;
    NoUpdateIsLost(s, steps);
    ReplayColumn(s.stored, log, c, avail);
    FileColumnIsReflectedWalk(avail, UsedOf(s.stored, c), IncsOf(log, c), low);
  }

  // ---------------------------------------------------------------------------
  // File columns

  /** Where the plain sum of a file column stands after k writes. */
  function FileLevel(init: Tally, log: seq<Commit>, c: Counter, k: nat): real
    requires k <= |log|
  {
    UsedOf(init, c) + Sum(IncsOf(log[..k], c))
  }

  lemma ChargeFiles(l: Limit, t: Tally, i: Increment, c: Counter)
    requires !CountsBytes(c) && AvailOf(l, c) > 0.0
    requires 0.0 <= UsedOf(t, c) + IncOf(i, c) < UINT_MOD as real
    ensures UsedOf(Charge(l, t, i), c) == UsedOf(t, c) + IncOf(i, c)
  {
  }

  /** A limited file column is the plain sum of its increments as long as that sum never
  leaves the range of the counter. */
  lemma {:induction false} FileColumnIsPlainSum(init: Tally, log: seq<Commit>, c: Counter)
    requires !CountsBytes(c) && forall i :: 0 <= i < |log| ==> AvailOf(log[i].limit, c) > 0.0
    requires forall k :: 0 <= k <= |log| ==> 0.0 <= FileLevel(init, log, c, k) < UINT_MOD as real
    ensures UsedOf(Replay(init, log), c) == FileLevel(init, log, c, |log|)
  {
    if log != [] {
      var n := |log| - 1;
      var rest, last := log[..n], log[n];
      forall k | 0 <= k <= n
        ensures FileLevel(init, rest, c, k) == FileLevel(init, log, c, k)
      {
        assert rest[..k] == log[..k];
      }
      FileColumnIsPlainSum(init, rest, c);
      FileLevelGrows(init, log, c);
      assert 0.0 <= FileLevel(init, log, c, |log|) < UINT_MOD as real;
      ChargeFiles(last.limit, Replay(init, rest), last.inc, c);
    }
  }

  lemma {:induction false} FileLevelGrows(init: Tally, log: seq<Commit>, c: Counter)
    requires |log| > 0
    ensures FileLevel(init, log, c, |log|) == FileLevel(init, log, c, |log| - 1) + IncOf(log[|log| - 1].inc, c)
  {
    var n := |log| - 1;
    assert log[..|log|] == log;
    var incs := IncsOf(log, c);
    assert incs[..n] == IncsOf(log[..n], c) && incs[n] == IncOf(log[n].inc, c);
  }

  /** A column without a limit stands still, bytes and files alike. */
  lemma {:induction false} UnlimitedColumnStands(init: Tally, log: seq<Commit>, c: Counter)
    requires forall i :: 0 <= i < |log| ==> AvailOf(log[i].limit, c) <= 0.0
    ensures UsedOf(Replay(init, log), c) == UsedOf(init, c)
  {
    if log != [] {
      UnlimitedColumnStands(init, log[..|log| - 1], c);
    }
  }
}
