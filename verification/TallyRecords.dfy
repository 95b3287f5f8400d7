/** The bytes of the tally table implement the table of records of module Login: as long as the
logins hold the mutex, every step on the bytes is a step on the records, or none.
*/
module TallyRecords {
  import opened Optional
  import opened TallyFile
  import opened TallySessions
  import opened TallyKeys
  import L = Login

  /** A record read is a record judged: rewinding and comparing only carry that out. */
  function SeenLogin(me: Proc, st: LoginStep): L.Pc {
    match st
    case AtMutex => L.AtMutex
    case AtLimits => L.AtLimits
    case ScanRead => L.Scanning(Index(me.cursor), me.key)
    case ScanRewind(start) => SeenRecord(me, start)
    case Compare => SeenRecord(me, me.cursor)
    case CreateLock | SeekEnd(_) | CreateWrite(_) => L.Missing(me.key)
    case CreateRewind(_, start) => L.Leaving(Some(Index(start)), me.key)
    case CreateUnlock(_, made) => L.Leaving(if made then Some(Index(me.cursor)) else None, me.key)
    case Leaving(found) => L.Leaving(if found then Some(Index(me.cursor)) else None, me.key)
    case Unlimited => L.Unlimited
  }

  function SeenRecord(me: Proc, c: nat): L.Pc {
    if L.Fits(me.mem, me.key) then L.Leaving(Some(Index(c)), me.key) else L.Scanning(Index(c) + 1, me.key)
  }

  function Seen(me: Proc): L.Pc {
    match me.stage
    case Outside => L.Outside
    case Login(st) => SeenLogin(me, st)
    case Session(_) => L.Session(Index(Home(me)), me.key)
    case Gone => L.Gone
  }

  ghost function Abstract(s: System): L.System {
    L.System(Table(s.file), s.mutex, map p | p in s.procs :: Seen(s.procs[p]), s.mutexHeld && s.scansRead)
  }

  /** The action of the table of records that a step stands for, if it is one. */
  function Meaning(me: Proc, a: Action): Option<L.Action> {
    match me.stage
    case Outside => Some(L.Enter)
    case Login(AtMutex) => if a.Acquire? then Some(L.Acquire(a.ok)) else None
    case Login(AtLimits) => if a.FindLimit? then Some(L.FindLimit(a.limit)) else None
    case Login(ScanRead) => if a.ReadV? then Some(L.ReadRecord(a.io)) else None
    case Login(CreateLock) => if a.Lock? && !a.ok then Some(L.Create(false)) else None
    case Login(CreateWrite(_)) => if a.WriteV? then Some(L.Create(a.ok)) else None
    case Login(Leaving(_)) => Some(L.Release)
    case Login(Unlimited) => Some(L.Release)
    case Session(Idle) => if a.Quit? then Some(L.Quit) else None
    case Session(AtWrite(_)) => if a.WriteV? && a.ok then Some(L.WriteCounters(me.mem)) else None
    case _ => None
  }

  ghost predicate Refined(s: System, p: Pid, a: Action)
    requires Enabled(s, p, a)
  {
    match Meaning(s.procs[p], a)
    case None => Abstract(Next(s, p, a)) == Abstract(s)
    case Some(x) => L.Enabled(Abstract(s), p, x) && L.Next(Abstract(s), p, x) == Abstract(Next(s, p, a))
  }

  lemma TableStep(f: bytes, me: Proc, a: Action)
    requires WellFormed(f) && Placed(f, me) && KeyHeld(f, me)
    ensures Table(NextFile(f, me, a)) == if Creates(me, a) then Table(f) + [me.mem]
                                         else if Stores(me, a) then Table(f)[Index(me.cursor) := me.mem]
                                         else Table(f)
    ensures Creates(me, a) ==> Index(me.cursor) == |Table(f)|
  {
    if Writes(me, a) {
      WriteOnGrid(f, me.cursor, me.mem);
    }
  }

  /** The record level after a step, at the stepping process. */
  lemma AbstractStep(s: System, p: Pid, a: Action)
    requires Enabled(s, p, a)
    ensures var me := s.procs[p];
            Abstract(Next(s, p, a)) ==
            L.System(Table(NextFile(s.file, me, a)), NextMutex(s.mutex, p, me, a),
                     Abstract(s).procs[p := Seen(NextProc(s.file, me, a))], Abstract(s).clean && Clean(me, a))
    ensures Abstract(s).procs[p] == Seen(s.procs[p])
  {
  }

  predicate Clean(me: Proc, a: Action) { (At(me, AtMutex) ==> a.Acquire? && a.ok) && (At(me, ScanRead) ==> a.ReadV? && a.io) }

  /** Steps that only carry out what the record level has seen already. */
  lemma QuietRefines(s: System, p: Pid, a: Action)
    requires Enabled(s, p, a) && WellFormed(s.file) && Placed(s.file, s.procs[p]) && Meaning(s.procs[p], a) == None
    ensures Refined(s, p, a)
  {
    AbstractStep(s, p, a);
    QuietSeen(s, p, a);
    QuietRest(s, p, a);
    assert Abstract(s).procs[p := Seen(s.procs[p])] == Abstract(s).procs;
  }

  lemma QuietRest(s: System, p: Pid, a: Action)
    requires Enabled(s, p, a) && Meaning(s.procs[p], a) == None
    ensures var me := s.procs[p];
            NextFile(s.file, me, a) == s.file && NextMutex(s.mutex, p, me, a) == s.mutex && Clean(me, a)
  {
  }

  lemma QuietSeen(s: System, p: Pid, a: Action)
    requires Enabled(s, p, a) && WellFormed(s.file) && Placed(s.file, s.procs[p]) && Meaning(s.procs[p], a) == None
    ensures Seen(NextProc(s.file, s.procs[p], a)) == Seen(s.procs[p])
  {
    var f, me := s.file, s.procs[p];
    match me.stage {
      case Login(st) =>
        assert !st.AtMutex? && !st.AtLimits? && !st.ScanRead? && !st.CreateWrite? && (st.CreateLock? ==> a.Lock? && a.ok);
        QuietLogin(f, me, st, a);
      case Session(st) =>
        assert !(st.Idle? && a.Quit?);
        QuietSession(f, me, st, a);
      case _ =>
    }
  }

  lemma QuietLogin(f: bytes, me: Proc, st: LoginStep, a: Action)
    requires WellFormed(f) && me.stage == Login(st) && LoginPlaced(f, me, st) && CanStep(me, a) && Meaning(me, a) == None
    requires !st.AtMutex? && !st.AtLimits? && !st.ScanRead? && !st.CreateWrite? && (st.CreateLock? ==> a.Lock? && a.ok)
    ensures Seen(LoginNext(f, me, st, a)) == Seen(me)
  {
    if st.Compare? {
      GridNext(f, me.cursor);
    }
  }

  lemma QuietSession(f: bytes, me: Proc, st: SessionStep, a: Action)
    requires me.stage == Session(st) && SessionPlaced(f, me, st) && CanStep(me, a) && !(st.Idle? && a.Quit?)
    ensures Seen(SessionNext(f, me, st, a)) == Seen(me)
  {
    HomeStep(f, me, st, a);
    assert SessionNext(f, me, st, a).stage != Gone;
  }

  /** What a read in the scan looks like from outside. */
  function Judged(t: seq<Record>, k: nat, key: Key, io: bool): L.Pc {
    if io && k < |t| then if L.Fits(t[k], key) then L.Leaving(Some(k), key) else L.Scanning(k + 1, key)
    else L.Missing(key)
  }

  lemma SeenScan(f: bytes, me: Proc, io: bool)
    requires WellFormed(f) && At(me, ScanRead) && OnGrid(me.cursor) && me.cursor <= |f|
    ensures Seen(LoginNext(f, me, ScanRead, ReadV(io))) == Judged(Table(f), Index(me.cursor), me.key, io)
  {
    GridIsPos(me.cursor);
    if me.cursor < |f| {
      ReadOnGrid(f, me);
    } else {
      EndOnGrid(f);
    }
  }

  lemma RecordScan(l: L.System, p: Pid, k: nat, key: Key, io: bool)
    requires p in l.procs && l.procs[p] == L.Scanning(k, key)
    ensures L.Enabled(l, p, L.ReadRecord(io))
    ensures L.Next(l, p, L.ReadRecord(io)) ==
            L.System(l.table, l.mutex, l.procs[p := Judged(l.table, k, key, io)], l.clean && io)
  {
  }

  lemma ScanRefines(s: System, p: Pid, io: bool)
    requires Enabled(s, p, ReadV(io)) && At(s.procs[p], ScanRead) && WellFormed(s.file) && Placed(s.file, s.procs[p])
    ensures Refined(s, p, ReadV(io))
  {
    var me := s.procs[p];
    SeenScan(s.file, me, io);
    AbstractStep(s, p, ReadV(io));
    RecordScan(Abstract(s), p, Index(me.cursor), me.key, io);
  }

  lemma RecordCreate(l: L.System, p: Pid, key: Key, ok: bool)
    requires p in l.procs && l.procs[p] == L.Missing(key) && L.ValidKey(key)
    ensures L.Enabled(l, p, L.Create(ok))
    ensures L.Next(l, p, L.Create(ok)) ==
            L.System(if ok then l.table + [L.NewRecord(key)] else l.table, l.mutex,
                     l.procs[p := L.Leaving(if ok then Some(|l.table|) else None, key)], l.clean)
  {
  }

  lemma CreateRefines(s: System, p: Pid, ok: bool)
    requires Enabled(s, p, WriteV(ok)) && WellFormed(s.file) && Placed(s.file, s.procs[p]) && KeyHeld(s.file, s.procs[p])
    requires s.procs[p].stage.Login? && s.procs[p].stage.login.CreateWrite?
    ensures Refined(s, p, WriteV(ok))
  {
    var me := s.procs[p];
    TableStep(s.file, me, WriteV(ok));
    CreateSeen(s.file, me, me.stage.login, ok);
    AbstractStep(s, p, WriteV(ok));
    RecordCreate(Abstract(s), p, me.key, ok);
  }

  lemma CreateSeen(f: bytes, me: Proc, st: LoginStep, ok: bool)
    requires me.stage == Login(st) && st.CreateWrite?
    ensures Seen(LoginNext(f, me, st, WriteV(ok))) == L.Leaving(if ok then Some(Index(me.cursor)) else None, me.key)
    ensures Clean(me, WriteV(ok)) && forall m, p :: NextMutex(m, p, me, WriteV(ok)) == m
    ensures Creates(me, WriteV(ok)) <==> ok
  {
  }

  lemma RefusedLockRefines(s: System, p: Pid)
    requires Enabled(s, p, Lock(false)) && At(s.procs[p], CreateLock) && Placed(s.file, s.procs[p])
    ensures Refined(s, p, Lock(false))
  {
    AbstractStep(s, p, Lock(false));
    RecordCreate(Abstract(s), p, s.procs[p].key, false);
  }

  lemma RecordWrite(l: L.System, p: Pid, k: nat, key: Key, t: Record)
    requires p in l.procs && l.procs[p] == L.Session(k, key) && k < |l.table| && SameTag(t, l.table[k])
    ensures L.Enabled(l, p, L.WriteCounters(t)) && L.Next(l, p, L.WriteCounters(t)) == l.(table := l.table[k := t])
  {
  }

  lemma WriteRefines(s: System, p: Pid)
    requires Enabled(s, p, WriteV(true)) && WellFormed(s.file) && Placed(s.file, s.procs[p]) && KeyHeld(s.file, s.procs[p])
    requires s.procs[p].stage.Session? && s.procs[p].stage.session.AtWrite?
    ensures Refined(s, p, WriteV(true))
  {
    var me := s.procs[p];
    TableStep(s.file, me, WriteV(true));
    AbstractStep(s, p, WriteV(true));
    QuietSession(s.file, me, me.stage.session, WriteV(true));
    RecordWrite(Abstract(s), p, Index(me.cursor), me.key, me.mem);
    assert Abstract(s).procs[p := Seen(me)] == Abstract(s).procs;
  }

  lemma EnterRefines(s: System, p: Pid, a: Action)
    requires Enabled(s, p, a) && s.procs[p].stage.Outside?
    ensures Refined(s, p, a)
  {
    AbstractStep(s, p, a);
  }

  lemma AcquireRefines(s: System, p: Pid, a: Action)
    requires Enabled(s, p, a) && At(s.procs[p], AtMutex)
    ensures Refined(s, p, a)
  {
    AbstractStep(s, p, a);
  }

  lemma LimitRefines(s: System, p: Pid, a: Action)
    requires Enabled(s, p, a) && WellFormed(s.file) && At(s.procs[p], AtLimits)
    ensures Refined(s, p, a)
  {
    AbstractStep(s, p, a);
    EndOnGrid(s.file);
  }

  lemma RecordLeave(l: L.System, p: Pid, entry: Option<nat>, key: Key)
    requires p in l.procs && l.procs[p] == L.Leaving(entry, key)
    ensures L.Enabled(l, p, L.Release)
    ensures L.Next(l, p, L.Release) ==
            L.System(l.table, if l.mutex == Some(p) then None else l.mutex,
                     l.procs[p := if entry.Some? then L.Session(entry.value, key) else L.Gone], l.clean)
  {
  }

  lemma LeaveRefines(s: System, p: Pid, a: Action, found: bool)
    requires Enabled(s, p, a) && At(s.procs[p], Leaving(found))
    ensures Refined(s, p, a)
  {
    var me := s.procs[p];
    AbstractStep(s, p, a);
    RecordLeave(Abstract(s), p, if found then Some(Index(me.cursor)) else None, me.key);
  }

  lemma UnlimitedRefines(s: System, p: Pid, a: Action)
    requires Enabled(s, p, a) && At(s.procs[p], Unlimited)
    ensures Refined(s, p, a)
  {
    AbstractStep(s, p, a);
  }

  lemma QuitRefines(s: System, p: Pid, a: Action)
    requires Enabled(s, p, a) && s.procs[p].stage == Session(Idle) && a.Quit?
    ensures Refined(s, p, a)
  {
    AbstractStep(s, p, a);
  }

  /** Every step on the bytes is a step on the records, or none; a session's write keeps the
  name and type because the record in memory has them. */
  lemma StepRefines(s: System, p: Pid, a: Action)
    requires Inv(s) && Enabled(s, p, a) && s.mutexHeld
    ensures Refined(s, p, a)
  {
    var me := s.procs[p];
    assert Placed(s.file, me) && KeyHeld(s.file, me);
    if Meaning(me, a) == None {
      QuietRefines(s, p, a);
    } else if me.stage.Outside? {
      EnterRefines(s, p, a);
    } else if At(me, AtMutex) {
      AcquireRefines(s, p, a);
    } else if At(me, AtLimits) {
      LimitRefines(s, p, a);
    } else if At(me, Unlimited) {
      UnlimitedRefines(s, p, a);
    } else if LeavesLogin(me) {
      LeaveRefines(s, p, a, me.stage.login.found);
    } else if me.stage == Session(Idle) {
      QuitRefines(s, p, a);
    } else if At(me, ScanRead) {
      ScanRefines(s, p, a.io);
    } else if At(me, CreateLock) {
      RefusedLockRefines(s, p);
    } else if me.stage.Login? {
      CreateRefines(s, p, a.ok);
    } else {
      WriteRefines(s, p);
    }
  }

  /** Along every run in which the logins hold the mutex, the bytes implement the records. */
  lemma {:induction false} RunRefines(s: System, steps: seq<(Pid, Action)>) returns (ls: seq<(Pid, L.Action)>)
    requires Inv(s) && Runs(s, steps) && After(s, steps).mutexHeld
    ensures L.Runs(Abstract(s), ls) && L.After(Abstract(s), ls) == Abstract(After(s, steps))
    decreases |steps|
  {
    if |steps| == 0 {
      ls := [];
    } else {
      var p, a := steps[0].0, steps[0].1;
      var s1 := Next(s, p, a);
      InvStep(s, p, a);
      InvAlongRun(s, steps);
      StepRefines(s, p, a);
      ls := RunRefines(s1, steps[1..]);
      var x := Meaning(s.procs[p], a);
      if x.Some? {
        ls := RecordPrepend(Abstract(s), p, x.value, Abstract(s1), ls, Abstract(After(s, steps)));
      }
    }
  }

  lemma RecordPrepend(l: L.System, p: Pid, x: L.Action, l1: L.System, rest: seq<(Pid, L.Action)>, end: L.System)
    returns (ls: seq<(Pid, L.Action)>)
    requires L.Enabled(l, p, x) && L.Next(l, p, x) == l1 && L.Runs(l1, rest) && L.After(l1, rest) == end
    ensures L.Runs(l, ls) && L.After(l, ls) == end
  {
    ls := [(p, x)] + rest;
    assert ls[1..] == rest;
  }

  /** Hence no interleaving of logins and sessions puts two records with one key into the
  file, if every login acquires the mutex and no scan fails. */
  lemma {:induction false} FileHasNoDuplicates(s: System, steps: seq<(Pid, Action)>)
    requires Start(s) && L.KeysUnique(Table(s.file)) && Runs(s, steps)
    requires After(s, steps).mutexHeld && After(s, steps).scansRead
    ensures WellFormed(After(s, steps).file) && L.KeysUnique(Table(After(s, steps).file))
  {
    StartIsSound(s);
    InvAlongRun(s, steps);
    var ls := RunRefines(s, steps);
    L.NoDuplicateTallies(Abstract(s), ls);
  }
}
