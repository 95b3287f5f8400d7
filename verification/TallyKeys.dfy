/** What the login mutex guarantees about the bytes of the tally table: records keep their name
and type, sessions stay at a record of their own key, and a creation locks and unlocks the
record it writes.
*/
module TallyKeys {
  import opened Optional
  import opened TallyFile
  import opened TallySessions
  import opened TallyLocks
  import L = Login

  predicate SameTag(a: Record, b: Record) { a.name == b.name && a.quotaType == b.quotaType }

  /** The position of the record that the process has in memory, if it has one. */
  function Place(me: Proc): Option<nat> {
    match me.stage
    case Login(ScanRewind(start)) => Some(start)
    case Login(Compare) => Some(me.cursor)
    case Session(_) => Some(Home(me))
    case _ => OwnPlaceInLogin(me)
  }

  /** The position of the record that the login has settled on. */
  function OwnPlaceInLogin(me: Proc): Option<nat> {
    match me.stage
    case Login(CreateRewind(_, start)) => Some(start)
    case Login(CreateUnlock(_, made)) => if made then Some(me.cursor) else None
    case Login(Leaving(found)) => if found then Some(me.cursor) else None
    case _ => None
  }

  predicate Owns(me: Proc) { me.stage.Session? || OwnPlaceInLogin(me).Some? }

  /** What is in memory is a version of the record it came from, and of the own key once that
  is settled; a creation writes at the end. */
  ghost predicate KeyHeld(f: bytes, me: Proc) {
    && (Place(me).Some? ==>
          var k := Index(Place(me).value); k < Count(f) && WellFormed(f) && SameTag(me.mem, Table(f)[k]))
    && (Owns(me) ==> L.Fits(me.mem, me.key))
    && (me.stage.Login? && me.stage.login.CreateWrite? ==> me.cursor == |f|)
  }

  /** Having acquired the mutex, or gone on without it. */
  predicate InLogin(st: Stage) { st.Login? && !st.login.AtMutex? }

  ghost predicate Inv(s: System) {
    && AllPlaced(s)
    && (s.mutexHeld ==>
          && (forall p :: p in s.procs && InLogin(s.procs[p].stage) ==> s.mutex == Some(p))
          && (forall p :: p in s.procs ==> KeyHeld(s.file, s.procs[p])))
  }

  /** Records are only appended or rewritten under the same name and type. */
  ghost predicate TagsKept(f: bytes, f': bytes) {
    && WellFormed(f) && WellFormed(f') && Count(f) <= Count(f')
    && forall i :: 0 <= i < Count(f) ==> SameTag(Table(f')[i], Table(f)[i])
  }

  lemma TagsKeptStep(f: bytes, me: Proc, a: Action)
    requires WellFormed(f) && Placed(f, me) && KeyHeld(f, me)
    ensures TagsKept(f, NextFile(f, me, a))
    ensures !Creates(me, a) ==> |NextFile(f, me, a)| == |f|
  {
    if Writes(me, a) {
      WriteOnGrid(f, me.cursor, me.mem);
    }
  }

  lemma OthersKey(f: bytes, f': bytes, other: Proc)
    requires KeyHeld(f, other) && TagsKept(f, f')
    requires other.stage.Login? && other.stage.login.CreateWrite? ==> |f'| == |f|
    ensures KeyHeld(f', other)
  {
  }

  /** Steps that touch neither the file nor the name and type in memory. */
  lemma QuietKey(f: bytes, me: Proc, me': Proc)
    requires KeyHeld(f, me) && SameTag(me'.mem, me.mem)
    requires Place(me').Some? ==> Place(me') == Place(me)
    requires Owns(me') ==> L.Fits(me'.mem, me'.key)
    requires !(me'.stage.Login? && me'.stage.login.CreateWrite?)
    ensures KeyHeld(f, me')
  {
  }

  /** What a lookup compares is the name and the type. */
  lemma FitsByTag(a: Record, b: Record, key: Key)
    requires SameTag(a, b)
    ensures L.Fits(a, key) <==> L.Fits(b, key)
  {
  }

  lemma KeyAfterRead(f: bytes, me: Proc, st: SessionStep, a: Action)
    requires WellFormed(f) && me.stage == Session(st) && SessionPlaced(f, me, st) && KeyHeld(f, me)
    requires st.PeekRead? || (st.AtRead? && !a.Keep?)
    ensures KeyHeld(f, SessionNext(f, me, st, a))
  {
    ReadOnGrid(f, me);
    FitsByTag(me.mem, Table(f)[Index(me.cursor)], me.key);
  }

  lemma KeyAfterWrite(f: bytes, me: Proc, st: SessionStep, a: Action)
    requires WellFormed(f) && me.stage == Session(st) && SessionPlaced(f, me, st) && KeyHeld(f, me) && st.AtWrite?
    ensures KeyHeld(NextFile(f, me, a), SessionNext(f, me, st, a))
  {
    WriteOnGrid(f, me.cursor, me.mem);
  }

  lemma KeyInSession(f: bytes, me: Proc, st: SessionStep, a: Action)
    requires WellFormed(f) && me.stage == Session(st) && SessionPlaced(f, me, st) && KeyHeld(f, me) && CanStep(me, a)
    ensures KeyHeld(NextFile(f, me, a), SessionNext(f, me, st, a))
  {
    if st.PeekRead? || (st.AtRead? && !a.Keep?) {
      KeyAfterRead(f, me, st, a);
    } else if st.AtWrite? {
      KeyAfterWrite(f, me, st, a);
    } else {
      var me' := SessionNext(f, me, st, a);
      FitsByTag(me'.mem, me.mem, me.key);
      QuietKey(f, me, me');
    }
  }

  lemma KeyAfterScan(f: bytes, me: Proc, a: Action)
    requires WellFormed(f) && At(me, ScanRead) && LoginPlaced(f, me, ScanRead)
    ensures KeyHeld(f, LoginNext(f, me, ScanRead, a))
  {
    if me.cursor < |f| {
      ReadOnGrid(f, me);
    }
  }

  lemma KeyAfterCreate(f: bytes, me: Proc, st: LoginStep, a: Action)
    requires WellFormed(f) && me.stage == Login(st) && LoginPlaced(f, me, st) && st.CreateWrite? && KeyHeld(f, me)
    ensures KeyHeld(NextFile(f, me, a), LoginNext(f, me, st, a))
  {
    WriteOnGrid(f, me.cursor, me.mem);
    L.NewRecordFits(me.key, me.mem);
  }

  lemma KeyAfterSeek(f: bytes, me: Proc, st: LoginStep, a: Action)
    requires WellFormed(f) && me.stage == Login(st) && LoginPlaced(f, me, st) && st.SeekEnd?
    ensures KeyHeld(f, LoginNext(f, me, st, a))
  {
  }

  /** The other steps of a login leave the record in memory where it is. */
  lemma KeyInQuietLogin(f: bytes, me: Proc, st: LoginStep, a: Action)
    requires me.stage == Login(st) && LoginPlaced(f, me, st) && KeyHeld(f, me)
    requires !st.ScanRead? && !st.CreateWrite? && !st.SeekEnd?
    ensures KeyHeld(f, LoginNext(f, me, st, a))
  {
    var me' := LoginNext(f, me, st, a);
    assert me'.mem == me.mem && !(me'.stage.Login? && me'.stage.login.CreateWrite?);
    QuietKey(f, me, me');
  }

  lemma KeyInLogin(f: bytes, me: Proc, st: LoginStep, a: Action)
    requires WellFormed(f) && me.stage == Login(st) && LoginPlaced(f, me, st) && KeyHeld(f, me)
    ensures KeyHeld(NextFile(f, me, a), LoginNext(f, me, st, a))
  {
    if st.ScanRead? {
      KeyAfterScan(f, me, a);
    } else if st.CreateWrite? {
      KeyAfterCreate(f, me, st, a);
    } else if st.SeekEnd? {
      KeyAfterSeek(f, me, st, a);
    } else {
      KeyInQuietLogin(f, me, st, a);
    }
  }

  lemma OwnKey(f: bytes, me: Proc, a: Action)
    requires WellFormed(f) && Placed(f, me) && KeyHeld(f, me) && CanStep(me, a)
    ensures KeyHeld(NextFile(f, me, a), NextProc(f, me, a))
  {
    match me.stage {
      case Login(st) => KeyInLogin(f, me, st, a);
      case Session(st) => KeyInSession(f, me, st, a);
      case _ =>
    }
  }

  lemma LoginStages(f: bytes, me: Proc, a: Action)
    requires CanStep(me, a)
    ensures InLogin(NextProc(f, me, a).stage) ==> me.stage.Login? && !LeavesLogin(me)
  {
  }

  lemma MutexStep(s: System, p: Pid, a: Action)
    requires Inv(s) && Enabled(s, p, a) && Next(s, p, a).mutexHeld
    ensures var s' := Next(s, p, a);
            forall q :: q in s'.procs && InLogin(s'.procs[q].stage) ==> s'.mutex == Some(q)
  {
    var s' := Next(s, p, a);
    LoginStages(s.file, s.procs[p], a);
    forall q | q in s'.procs && InLogin(s'.procs[q].stage)
      ensures s'.mutex == Some(q)
    {
      if q != p {
        assert s'.procs[q] == s.procs[q];
      }
    }
  }

  /** Under the mutex only one process is in its login. */
  lemma OneLogin(s: System, p: Pid, q: Pid)
    requires Inv(s) && s.mutexHeld && p in s.procs && q in s.procs && p != q
    ensures !(InLogin(s.procs[p].stage) && InLogin(s.procs[q].stage))
  {
  }

  lemma KeyStep(s: System, p: Pid, a: Action, q: Pid)
    requires Inv(s) && s.mutexHeld && Enabled(s, p, a) && q in s.procs
    ensures KeyHeld(NextFile(s.file, s.procs[p], a), if q == p then NextProc(s.file, s.procs[p], a) else s.procs[q])
  {
    var me := s.procs[p];
    assert KeyHeld(s.file, me) && KeyHeld(s.file, s.procs[q]) && Placed(s.file, me);
    if q == p {
      OwnKey(s.file, me, a);
    } else {
      OneLogin(s, p, q);
      OtherKeyStep(s.file, me, a, s.procs[q]);
    }
  }

  lemma OtherKeyStep(f: bytes, me: Proc, a: Action, other: Proc)
    requires WellFormed(f) && Placed(f, me) && KeyHeld(f, me) && KeyHeld(f, other)
    requires !(InLogin(me.stage) && InLogin(other.stage))
    ensures KeyHeld(NextFile(f, me, a), other)
  {
    TagsKeptStep(f, me, a);
    OthersKey(f, NextFile(f, me, a), other);
  }

  lemma InvStep(s: System, p: Pid, a: Action)
    requires Inv(s) && Enabled(s, p, a)
    ensures Inv(Next(s, p, a))
  {
    var s' := Next(s, p, a);
    PlacedStep(s, p, a);
    if s'.mutexHeld {
      MutexStep(s, p, a);
      forall q | q in s'.procs
        ensures KeyHeld(s'.file, s'.procs[q])
      {
        KeyStep(s, p, a, q);
      }
    }
  }

  lemma {:induction false} InvAlongRun(s: System, steps: seq<(Pid, Action)>)
    requires Inv(s) && Runs(s, steps)
    ensures Inv(After(s, steps)) && (After(s, steps).mutexHeld ==> s.mutexHeld)
    decreases |steps|
  {
    if |steps| != 0 {
      InvStep(s, steps[0].0, steps[0].1);
      InvAlongRun(Next(s, steps[0].0, steps[0].1), steps[1..]);
    }
  }

  lemma StartIsSound(s: System)
    requires Start(s)
    ensures Inv(s)
  {
  }

  /** With the mutex held by every login, no record ever changes its name or type, and what a
  session has in memory is always a version of the record at its cursor. */
  lemma {:induction false} SessionsKeepTheirRecord(s: System, steps: seq<(Pid, Action)>)
    requires Inv(s) && Runs(s, steps) && After(s, steps).mutexHeld
    ensures TagsKept(s.file, After(s, steps).file)
    ensures forall p :: p in After(s, steps).procs && After(s, steps).procs[p].stage.Session? ==>
              var me := After(s, steps).procs[p];
              && Index(Home(me)) < Count(After(s, steps).file)
              && SameTag(me.mem, Table(After(s, steps).file)[Index(Home(me))]) && L.Fits(me.mem, me.key)
    decreases |steps|
  {
    InvAlongRun(s, steps);
    var end := After(s, steps);
    forall p | p in end.procs && end.procs[p].stage.Session?
      ensures var me := end.procs[p];
              && Index(Home(me)) < Count(end.file)
              && SameTag(me.mem, Table(end.file)[Index(Home(me))]) && L.Fits(me.mem, me.key)
    {
      assert KeyHeld(end.file, end.procs[p]);
    }
    if |steps| != 0 {
      var p, a := steps[0].0, steps[0].1;
      InvStep(s, p, a);
      assert Placed(s.file, s.procs[p]) && KeyHeld(s.file, s.procs[p]);
      TagsKeptStep(s.file, s.procs[p], a);
      SessionsKeepTheirRecord(Next(s, p, a), steps[1..]);
    }
  }

  /** The mutex is with a process in the middle of its login, or with nobody. */
  ghost predicate MutexWithLogin(m: Option<Pid>, procs: map<Pid, Proc>) {
    m.Some? ==> m.value in procs && InLogin(procs[m.value].stage)
  }

  lemma MutexStays(f: bytes, m: Option<Pid>, p: Pid, me: Proc, a: Action)
    requires CanStep(me, a) && (m == Some(p) ==> InLogin(me.stage)) && (At(me, AtMutex) ==> a.Acquire?)
    ensures NextMutex(m, p, me, a) == Some(p) ==> InLogin(NextProc(f, me, a).stage)
    ensures NextMutex(m, p, me, a) == Some(p) || NextMutex(m, p, me, a) == m || NextMutex(m, p, me, a) == None
  {
  }

  lemma MutexUpdate(m: Option<Pid>, procs: map<Pid, Proc>, p: Pid, me: Proc, m': Option<Pid>)
    requires MutexWithLogin(m, procs) && p in procs && (m' == m || m' == Some(p) || m' == None)
    requires m' == Some(p) ==> InLogin(me.stage)
    ensures MutexWithLogin(m', procs[p := me])
  {
  }

  lemma MutexWithLoginStep(s: System, p: Pid, a: Action)
    requires MutexWithLogin(s.mutex, s.procs) && Enabled(s, p, a)
    ensures MutexWithLogin(NextMutex(s.mutex, p, s.procs[p], a), s.procs[p := NextProc(s.file, s.procs[p], a)])
  {
    var me := s.procs[p];
    EnabledAcquires(s, p, a);
    MutexStays(s.file, s.mutex, p, me, a);
    MutexUpdate(s.mutex, s.procs, p, NextProc(s.file, me, a), NextMutex(s.mutex, p, me, a));
  }

  lemma EnabledAcquires(s: System, p: Pid, a: Action)
    requires Enabled(s, p, a)
    ensures CanStep(s.procs[p], a) && (At(s.procs[p], AtMutex) ==> a.Acquire?)
  {
  }

  /** Every login that takes the mutex gives it back: in every run, whether or not others got
  it, a process that is past its login, with quotas or without, does not hold it. */
  lemma {:induction false} MutexIsGivenBack(s: System, steps: seq<(Pid, Action)>)
    requires MutexWithLogin(s.mutex, s.procs) && Runs(s, steps)
    ensures MutexWithLogin(After(s, steps).mutex, After(s, steps).procs)
    decreases |steps|
  {
    if |steps| != 0 {
      MutexWithLoginStep(s, steps[0].0, steps[0].1);
      MutexIsGivenBack(Next(s, steps[0].0, steps[0].1), steps[1..]);
    }
  }

  // ---------------------------------------------------------------------------
  // The locks of a creation

  /** The scan ended at the end of the file, and the creation locks, writes and unlocks there.
  Nothing stays locked outside a locked section. */
  ghost predicate Tidy(f: bytes, me: Proc) {
    match me.stage
    case Login(CreateLock) => me.cursor == |f|
    case Login(SeekEnd(at)) => at == |f|
    case Login(CreateWrite(at)) => at == me.cursor
    case Login(CreateRewind(at, start)) => at == start
    case Login(CreateUnlock(at, _)) => at == me.cursor
    case Login(Leaving(_)) => me.locks == map[]
    case Session(st) => me.locks.Keys == if Writing(st) || Peeking(st) then {Home(me)} else {}
    case Gone => me.locks == map[]
    case _ => true
  }

  ghost predicate TidyInv(s: System) {
    && Inv(s) && LockInv(s)
    && (s.mutexHeld && s.scansRead ==> forall p :: p in s.procs ==> Tidy(s.file, s.procs[p]))
  }

  lemma TidyLogin(f: bytes, me: Proc, st: LoginStep, a: Action)
    requires me.stage == Login(st) && LoginPlaced(f, me, st) && KeyHeld(f, me) && Holding(me) && Tidy(f, me)
    requires CanStep(me, a) && (st.ScanRead? ==> a.ReadV? && a.io)
    ensures Tidy(NextFile(f, me, a), LoginNext(f, me, st, a))
  {
  }

  lemma TidyLockStep(f: bytes, me: Proc, st: SessionStep, a: Action)
    requires me.stage == Session(st) && SessionPlaced(f, me, st) && Tidy(f, me) && LockStep(st)
    ensures Tidy(f, SessionNext(f, me, st, a))
  {
    var me' := SessionNext(f, me, st, a);
    if me'.stage.Session? {
      assert me'.locks.Keys == if Writing(me'.stage.session) || Peeking(me'.stage.session) then {Home(me)} else {};
    }
  }

  lemma TidySession(f: bytes, me: Proc, st: SessionStep, a: Action)
    requires me.stage == Session(st) && SessionPlaced(f, me, st) && Tidy(f, me)
    requires CanStep(me, a) && (st.AtCharge? ==> a.Charge?)
    ensures Tidy(NextFile(f, me, a), SessionNext(f, me, st, a))
  {
    if LockStep(st) {
      TidyLockStep(f, me, st, a);
    } else {
      HomeStep(f, me, st, a);
      assert SessionNext(f, me, st, a).locks == me.locks;
    }
  }

  lemma OthersTidy(s: System, p: Pid, a: Action, q: Pid)
    requires TidyInv(s) && s.mutexHeld && s.scansRead && Enabled(s, p, a) && q in s.procs && q != p
    ensures Tidy(Next(s, p, a).file, s.procs[q])
  {
    assert Placed(s.file, s.procs[p]) && KeyHeld(s.file, s.procs[p]) && Tidy(s.file, s.procs[q]);
    TagsKeptStep(s.file, s.procs[p], a);
    OneLogin(s, p, q);
  }

  /** What is enabled in a login's scan and a session's charge. */
  predicate Suits(me: Proc, a: Action) {
    && CanStep(me, a) && (At(me, ScanRead) ==> a.ReadV?) && (me.stage == Session(AtCharge) ==> a.Charge?)
    && (me.stage == Session(AtRead) ==> a.ReadV? || a.Keep?)
  }

  lemma EnabledSuits(s: System, p: Pid, a: Action)
    requires Enabled(s, p, a)
    ensures Suits(s.procs[p], a)
  {
  }

  lemma OwnTidy(f: bytes, me: Proc, a: Action)
    requires Placed(f, me) && KeyHeld(f, me) && Holding(me) && Tidy(f, me) && Suits(me, a) && (At(me, ScanRead) ==> a.io)
    ensures Tidy(NextFile(f, me, a), NextProc(f, me, a))
  {
    match me.stage {
      case Login(st) => TidyLogin(f, me, st, a);
      case Session(st) => TidySession(f, me, st, a);
      case _ =>
    }
  }

  lemma TidyStep(s: System, p: Pid, a: Action)
    requires TidyInv(s) && Enabled(s, p, a)
    ensures TidyInv(Next(s, p, a))
  {
    var s' := Next(s, p, a);
    InvStep(s, p, a);
    LockInvStep(s, p, a);
    if s'.mutexHeld && s'.scansRead {
      forall q | q in s'.procs
        ensures Tidy(s'.file, s'.procs[q])
      {
        if q == p {
          EnabledSuits(s, p, a);
          OwnTidy(s.file, s.procs[p], a);
        } else {
          OthersTidy(s, p, a, q);
        }
      }
    }
  }

  lemma {:induction false} TidyAlongRun(s: System, steps: seq<(Pid, Action)>)
    requires TidyInv(s) && Runs(s, steps)
    ensures TidyInv(After(s, steps))
    decreases |steps|
  {
    if |steps| != 0 {
      TidyStep(s, steps[0].0, steps[0].1);
      TidyAlongRun(Next(s, steps[0].0, steps[0].1), steps[1..]);
    }
  }

  /** A creation has exactly the record it is about to write, or has written, locked; a
  session the record at its cursor, between lock and unlock; and nothing else is locked. */
  ghost predicate OwnLockOnly(f: bytes, me: Proc) {
    match me.stage
    case Login(CreateLock) => me.cursor == |f| && me.locks == map[]
    case Login(SeekEnd(_)) => me.cursor == |f| && me.locks == map[me.cursor := Exclusive]
    case Login(CreateWrite(_)) => me.cursor == |f| && me.locks == map[me.cursor := Exclusive]
    case Login(CreateRewind(_, start)) => start < |f| && me.locks == map[start := Exclusive]
    case Login(CreateUnlock(_, _)) => me.locks == map[me.cursor := Exclusive]
    case Session(st) => me.locks.Keys == if Writing(st) || Peeking(st) then {Home(me)} else {}
    case _ => me.locks == map[]
  }

  lemma TidyLocks(f: bytes, me: Proc)
    requires Placed(f, me) && KeyHeld(f, me) && Holding(me) && Tidy(f, me)
    ensures OwnLockOnly(f, me)
  {
  }

  /** In every run in which each login gets the mutex and no scan fails, a creation locks the
  end of the file, writes its record there and unlocks that record; a session locks and
  unlocks its own record, and outside such a section a process holds no lock. */
  lemma {:induction false} GuardedCreationsUnlock(s: System, steps: seq<(Pid, Action)>, p: Pid)
    requires Start(s) && Runs(s, steps) && After(s, steps).mutexHeld && After(s, steps).scansRead
    requires p in After(s, steps).procs
    ensures OwnLockOnly(After(s, steps).file, After(s, steps).procs[p])
  {
    StartIsSound(s);
    StartIsLocked(s);
    TidyAlongRun(s, steps);
    var end := After(s, steps);
    var me := end.procs[p];
    assert Placed(end.file, me) && KeyHeld(end.file, me) && Holding(me) && Tidy(end.file, me);
    TidyLocks(end.file, me);
  }
}
