/** The byte-range locks of the file backend, taken and released where the cursor happens to be.

A lock covers the 121 bytes from the cursor at the time of the call, and so does an unlock.
A session does both at its record. A creation locks where its scan stopped and unlocks where
it has written, and these are the same bytes only if the scan stopped at what is still the
end of the file when the creation seeks it.
*/
module TallyLocks {
  import opened Optional
  import opened TallyFile
  import opened TallySessions
  import L = Login

  /** Between the lock and the unlock of a creation. */
  predicate Creating(st: LoginStep) { st.SeekEnd? || st.CreateWrite? || st.CreateRewind? || st.CreateUnlock? }

  /** Between the lock and the unlock of a tally write, and of a read before a command. */
  predicate Writing(st: SessionStep) {
    st.AtRead? || st.ReadRewind? || st.AtCharge? || st.AtWrite? || st.WriteRewind? || st.AtUnlock?
  }

  predicate Peeking(st: SessionStep) { st.PeekRead? || st.PeekRewind? || st.AtSharedUnlock? }

  predicate Locks(st: Stage) { st.Session? && (Writing(st.session) || Peeking(st.session)) }

  /** A process holds the lock that its stage supposes; a login holds no other. */
  ghost predicate Holding(me: Proc) {
    && (forall c :: c in me.locks ==> OnGrid(c))
    && match me.stage
       case Outside => me.locks == map[]
       case Login(st) =>
         if Creating(st) then me.locks == map[st.at := Exclusive] else st.Leaving? || me.locks == map[]
       case Session(st) =>
         && (Writing(st) ==> Home(me) in me.locks && me.locks[Home(me)] == Exclusive)
         && (Peeking(st) ==> Home(me) in me.locks)
       case Gone => true
  }

  /** Two processes share bytes only under shared locks. */
  ghost predicate Compatible(a: map<nat, Kind>, b: map<nat, Kind>) {
    forall c :: c in a && c in b ==> a[c] == Shared && b[c] == Shared
  }

  ghost predicate LocksApart(procs: map<Pid, Proc>) {
    forall p, q :: p in procs && q in procs && p != q ==> Compatible(procs[p].locks, procs[q].locks)
  }

  ghost predicate LockInv(s: System) {
    AllPlaced(s) && LocksApart(s.procs) && forall p :: p in s.procs ==> Holding(s.procs[p])
  }

  /** The steps that lock or unlock. */
  predicate LockStep(st: SessionStep) { st.AtSharedLock? || st.AtLock? || st.AtSharedUnlock? || st.AtUnlock? || st.Idle? }

  lemma SessionLocks(f: bytes, me: Proc, st: SessionStep, a: Action)
    requires me.stage == Session(st) && SessionPlaced(f, me, st) && Holding(me) && LockStep(st)
    ensures Holding(SessionNext(f, me, st, a))
  {
  }

  lemma SessionHolds(f: bytes, me: Proc, st: SessionStep, a: Action)
    requires me.stage == Session(st) && SessionPlaced(f, me, st) && Holding(me) && CanStep(me, a)
    requires st.AtCharge? ==> a.Charge?
    ensures Holding(SessionNext(f, me, st, a))
  {
    if LockStep(st) {
      SessionLocks(f, me, st, a);
    } else {
      HomeStep(f, me, st, a);
      assert SessionNext(f, me, st, a).locks == me.locks;
    }
  }

  lemma LoginHolds(f: bytes, me: Proc, st: LoginStep, a: Action)
    requires me.stage == Login(st) && LoginPlaced(f, me, st) && Holding(me) && CanStep(me, a)
    ensures Holding(LoginNext(f, me, st, a))
  {
  }

  /** A step adds at most the lock at the cursor, and only if the system grants it. */
  lemma NewLocks(s: System, p: Pid, a: Action, c: nat)
    requires Enabled(s, p, a) && c in NextProc(s.file, s.procs[p], a).locks
    ensures var me, me' := s.procs[p], NextProc(s.file, s.procs[p], a);
            || (c in me.locks && me'.locks[c] == me.locks[c])
            || (c == me.cursor && Grantable(s, p, c, me'.locks[c]))
  {
    var me := s.procs[p];
    match me.stage {
      case Login(st) => assert st.CreateLock? || c in me.locks;
      case Session(st) => assert st.AtLock? || st.AtSharedLock? || c in me.locks;
      case _ =>
    }
  }

  lemma CompatibleStep(s: System, p: Pid, a: Action, q: Pid)
    requires Enabled(s, p, a) && q in s.procs && q != p && Compatible(s.procs[p].locks, s.procs[q].locks)
    ensures Compatible(NextProc(s.file, s.procs[p], a).locks, s.procs[q].locks)
  {
    var me' := NextProc(s.file, s.procs[p], a);
    forall c | c in me'.locks && c in s.procs[q].locks
      ensures me'.locks[c] == Shared && s.procs[q].locks[c] == Shared
    {
      NewLocks(s, p, a, c);
      assert Overlap(c, c);
    }
  }

  lemma ApartUpdate(procs: map<Pid, Proc>, p: Pid, me: Proc)
    requires LocksApart(procs) && p in procs
    requires forall q :: q in procs && q != p ==> Compatible(me.locks, procs[q].locks)
    ensures LocksApart(procs[p := me])
  {
  }

  lemma ApartStep(s: System, p: Pid, a: Action)
    requires LocksApart(s.procs) && Enabled(s, p, a)
    ensures LocksApart(Next(s, p, a).procs)
  {
    var me' := NextProc(s.file, s.procs[p], a);
    forall q | q in s.procs && q != p
      ensures Compatible(me'.locks, s.procs[q].locks)
    {
      CompatibleStep(s, p, a, q);
    }
    ApartUpdate(s.procs, p, me');
  }

  lemma OwnHolding(f: bytes, me: Proc, a: Action)
    requires Placed(f, me) && Holding(me) && CanStep(me, a) && (me.stage == Session(AtCharge) ==> a.Charge?)
    ensures Holding(NextProc(f, me, a))
  {
    match me.stage {
      case Login(st) => LoginHolds(f, me, st, a);
      case Session(st) => SessionHolds(f, me, st, a);
      case _ =>
    }
  }

  lemma LockInvStep(s: System, p: Pid, a: Action)
    requires LockInv(s) && Enabled(s, p, a)
    ensures LockInv(Next(s, p, a))
  {
    PlacedStep(s, p, a);
    ApartStep(s, p, a);
    OwnHolding(s.file, s.procs[p], a);
  }

  lemma {:induction false} LockInvAlongRun(s: System, steps: seq<(Pid, Action)>)
    requires LockInv(s) && Runs(s, steps)
    ensures LockInv(After(s, steps))
    decreases |steps|
  {
    if |steps| != 0 {
      LockInvStep(s, steps[0].0, steps[0].1);
      LockInvAlongRun(Next(s, steps[0].0, steps[0].1), steps[1..]);
    }
  }

  lemma StartIsLocked(s: System)
    requires Start(s)
    ensures LockInv(s)
  {
  }

  /** In every run from the start, with or without the mutex, two creations whose scans ended
  at the same place are never between lock and unlock together, and neither are two tally
  writes at one record, a creation whose scan ended at a record and a tally write at it, or a
  tally write and a read before a command. */
  lemma {:induction false} LocksExclude(s: System, steps: seq<(Pid, Action)>, p: Pid, q: Pid)
    requires Start(s) && Runs(s, steps) && p in After(s, steps).procs && q in After(s, steps).procs && p != q
    ensures var me, other := After(s, steps).procs[p], After(s, steps).procs[q];
            && (me.stage.Login? && Creating(me.stage.login) && other.stage.Login? && Creating(other.stage.login) ==>
                  !Overlap(me.stage.login.at, other.stage.login.at))
            && (me.stage.Login? && Creating(me.stage.login) && Locks(other.stage) ==>
                  !Overlap(me.stage.login.at, Home(other)))
            && (me.stage.Session? && Writing(me.stage.session) && Locks(other.stage) ==>
                  !Overlap(Home(me), Home(other)))
  {
    StartIsLocked(s);
    LockInvAlongRun(s, steps);
    var end := After(s, steps);
    assert Compatible(end.procs[p].locks, end.procs[q].locks);
    Excluded(end.procs[p], end.procs[q]);
  }

  lemma Excluded(me: Proc, other: Proc)
    requires Holding(me) && Holding(other) && Compatible(me.locks, other.locks)
    ensures me.stage.Login? && Creating(me.stage.login) && other.stage.Login? && Creating(other.stage.login) ==>
              !Overlap(me.stage.login.at, other.stage.login.at)
    ensures me.stage.Login? && Creating(me.stage.login) && Locks(other.stage) ==> !Overlap(me.stage.login.at, Home(other))
    ensures me.stage.Session? && Writing(me.stage.session) && Locks(other.stage) ==> !Overlap(Home(me), Home(other))
  {
    forall c, d | c in me.locks && d in other.locks && me.locks[c] == Exclusive
      ensures !Overlap(c, d)
    {
      GridOverlap(c, d);
    }
  }

  // ---------------------------------------------------------------------------
  // What a creation leaves locked

  /** The creation whose scan ended at `at` has sought the end of the file at `e`. In the
  session that follows, the lock at `at` is left over exactly if the two differ. */
  ghost predicate Sought(me: Proc, at: nat, e: nat) {
    match me.stage
    case Login(CreateWrite(a)) => a == at && me.cursor == e
    case Login(CreateRewind(a, start)) => a == at && start == e
    case Login(CreateUnlock(a, _)) => a == at && me.cursor == e
    case Login(Leaving(_)) => me.cursor == e && me.locks == Leftover(at, e)
    case Session(st) =>
      Home(me) == e && me.locks - {e} == Leftover(at, e) && (e in me.locks <==> Writing(st) || Peeking(st))
    case Gone => true
    case _ => false
  }

  function Leftover(at: nat, e: nat): map<nat, Kind> { if at == e then map[] else map[at := Exclusive] }

  lemma SoughtInLogin(f: bytes, me: Proc, st: LoginStep, a: Action, at: nat, e: nat)
    requires me.stage == Login(st) && LoginPlaced(f, me, st) && Holding(me) && Sought(me, at, e) && CanStep(me, a)
    ensures Sought(LoginNext(f, me, st, a), at, e)
  {
    if st.Leaving? && st.found {
      assert me.locks - {e} == me.locks;
    }
  }

  lemma SoughtInSession(f: bytes, me: Proc, st: SessionStep, a: Action, at: nat, e: nat)
    requires me.stage == Session(st) && SessionPlaced(f, me, st) && Sought(me, at, e) && CanStep(me, a)
    requires st.AtCharge? ==> a.Charge?
    ensures Sought(SessionNext(f, me, st, a), at, e)
  {
    var me' := SessionNext(f, me, st, a);
    if me'.stage.Session? {
      assert me'.locks - {e} == me.locks - {e};
    }
  }

  lemma {:induction false} SoughtAlongRun(s: System, steps: seq<(Pid, Action)>, p: Pid, at: nat, e: nat)
    requires LockInv(s) && Runs(s, steps) && p in s.procs && Sought(s.procs[p], at, e)
    ensures p in After(s, steps).procs && Sought(After(s, steps).procs[p], at, e)
    decreases |steps|
  {
    if |steps| != 0 {
      var a := steps[0].1;
      LockInvStep(s, steps[0].0, a);
      if steps[0].0 == p {
        var me := s.procs[p];
        assert Placed(s.file, me) && Holding(me);
        match me.stage {
          case Login(st) => SoughtInLogin(s.file, me, st, a, at, e);
          case Session(st) => SoughtInSession(s.file, me, st, a, at, e);
          case _ =>
        }
      }
      SoughtAlongRun(Next(s, steps[0].0, a), steps[1..], p, at, e);
    }
  }

  /** A creation unlocks what it locked if and only if its scan ended at what is the end of the
  file when it seeks it. If not, then until the session exits it keeps an exclusive lock on a
  record that is not its own, and the system grants no other process a lock there. */
  lemma {:induction false} CreationUnlocksIff(s: System, steps: seq<(Pid, Action)>, p: Pid)
    requires LockInv(s) && p in s.procs && s.procs[p].stage.Login? && s.procs[p].stage.login.SeekEnd?
    requires |steps| > 0 && steps[0] == (p, Go) && Runs(s, steps)
    ensures p in After(s, steps).procs
    ensures var at, me := s.procs[p].stage.login.at, After(s, steps).procs[p];
            && (me.stage.Login? && me.stage.login.CreateUnlock? ==>
                  (me.cursor == at <==> at == |s.file|) && (Unlocked(me).locks == map[] <==> at == |s.file|))
            && (me.stage.Session? ==>
                  && Home(me) == |s.file|
                  && (me.stage.session.Idle? ==> (me.locks == map[] <==> at == |s.file|))
                  && (at != |s.file| ==>
                        && at < Home(me) && Index(at) < Count(s.file) && at in me.locks && me.locks[at] == Exclusive
                        && forall q, kind :: q != p ==> !Grantable(After(s, steps), q, at, kind)))
  {
    var at, e := s.procs[p].stage.login.at, |s.file|;
    assert Placed(s.file, s.procs[p]) && Holding(s.procs[p]);
    var s1 := Next(s, p, Go);
    LockInvStep(s, p, Go);
    SoughtAlongRun(s1, steps[1..], p, at, e);
    LockInvAlongRun(s1, steps[1..]);
    var me := After(s, steps).procs[p];
    assert me == After(s1, steps[1..]).procs[p] && Holding(me);
    LeftoverLocks(me, at, e);
    if at != e {
      GridIsPos(at);
      if me.stage.Session? {
        forall q, kind | q != p
          ensures !Grantable(After(s, steps), q, at, kind)
        {
          assert Overlap(at, at) && at in me.locks;
        }
      }
    }
  }

  lemma LeftoverLocks(me: Proc, at: nat, e: nat)
    requires Sought(me, at, e) && Holding(me)
    ensures me.stage.Login? && me.stage.login.CreateUnlock? ==> (Unlocked(me).locks == map[] <==> at == e)
    ensures me.stage.Session? && me.stage.session.Idle? ==> (me.locks == map[] <==> at == e)
    ensures me.stage.Session? && at != e ==> at in me.locks && me.locks[at] == Exclusive
  {
    if me.stage.Session? {
      if me.stage.session.Idle? {
        assert me.locks - {e} == me.locks;
      }
      if at != e {
        assert at in me.locks - {e};
      }
    }
    if me.stage.Login? && me.stage.login.CreateUnlock? && at != e {
      assert at in Unlocked(me).locks;
    }
  }

  /** With the end of its session a process gives up every lock, a leftover one included, and
  takes none again. */
  lemma {:induction false} ExitGivesUpLocks(s: System, steps: seq<(Pid, Action)>, p: Pid)
    requires p in s.procs && s.procs[p].stage == Session(Idle) && |steps| > 0 && steps[0] == (p, Quit) && Runs(s, steps)
    ensures p in After(s, steps).procs && After(s, steps).procs[p].locks == map[]
  {
    GoneWithout(Next(s, p, Quit), steps[1..], p);
  }

  lemma {:induction false} GoneWithout(s: System, steps: seq<(Pid, Action)>, p: Pid)
    requires Runs(s, steps) && p in s.procs && s.procs[p].stage == Gone && s.procs[p].locks == map[]
    ensures p in After(s, steps).procs && After(s, steps).procs[p].locks == map[]
    decreases |steps|
  {
    if |steps| != 0 {
      GoneWithout(Next(s, steps[0].0, steps[0].1), steps[1..], p);
    }
  }
}
