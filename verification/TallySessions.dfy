/** Logins and sessions of many processes on the bytes of one tally table.

Every process has its own file cursor, its own record in memory and its own byte-range
locks. A login reads, rewinds, compares and seeks on until its record is found, or locks,
seeks to the end, writes a new one, rewinds and unlocks. A session locks, reads, rewinds,
charges, writes, rewinds and unlocks, or only reads under a shared lock. Each of these is
one step, and steps of all processes interleave freely.
*/
module TallySessions {
  import opened Optional
  import opened TallyFile
  import L = Login

  type Pid = nat

  type Key = L.Key

  datatype Counters = Counters(bytesIn: bytes, bytesOut: bytes, bytesXfer: bytes, filesIn: bytes, filesOut: bytes, filesXfer: bytes)

  predicate Sizes(c: Counters) {
    && |c.bytesIn| == 8 && |c.bytesOut| == 8 && |c.bytesXfer| == 8
    && |c.filesIn| == 4 && |c.filesOut| == 4 && |c.filesXfer| == 4
  }

  function CountersOf(t: Record): (c: Counters)
    ensures Sizes(c)
  {
    Counters(t.bytesIn, t.bytesOut, t.bytesXfer, t.filesIn, t.filesOut, t.filesXfer)
  }

  function WithCounters(t: Record, c: Counters): Record
    requires Sizes(c)
  {
    RawTally(t.name, t.quotaType, c.bytesIn, c.bytesOut, c.bytesXfer, c.filesIn, c.filesOut, c.filesXfer)
  }

  /** What a tally write does to the counters. */
  type Charging = Counters -> Counters

  datatype LoginStep =
    | AtMutex
    | AtLimits
    | ScanRead
    | ScanRewind(start: nat)
    | Compare
    | CreateLock
    | SeekEnd(at: nat)
    | CreateWrite(at: nat)
    | CreateRewind(at: nat, start: nat)
    | CreateUnlock(at: nat, made: bool)
    | Leaving(found: bool)
    | Unlimited

  datatype SessionStep =
    | Idle
      // quotatab_read before a command
    | AtSharedLock | PeekRead | PeekRewind(start: nat) | AtSharedUnlock
      // quotatab_write
    | AtLock | AtRead | ReadRewind(start: nat) | AtCharge | AtWrite(add: Charging) | WriteRewind(start: nat) | AtUnlock

  datatype Stage = Outside | Login(login: LoginStep) | Session(session: SessionStep) | Gone

  datatype Kind = Shared | Exclusive

  /** `key` is the limit the process is held to, `mem` its tally structure, and `locks` the
  fcntl locks it has, by the position at which their 121 bytes start. */
  datatype Proc = Proc(stage: Stage, key: Key, cursor: nat, mem: Record, locks: map<nat, Kind>)

  /** A store by a session at record k. */
  datatype Commit = Commit(k: nat, add: Charging)

  /** `mutexHeld` says that so far every login got the mutex, `scansRead` that no scan met a
  read error, `updatesRead` that no re-read before a store did; the source carries on after
  each kind of failure. */
  datatype System = System(file: bytes, mutex: Option<Pid>, procs: map<Pid, Proc>, log: seq<Commit>,
                           mutexHeld: bool, scansRead: bool, updatesRead: bool)

  datatype Action =
    | Enter
    | Acquire(ok: bool)
    | FindLimit(limit: Option<Key>)
    | ReadV(io: bool)
    | WriteV(ok: bool)
    | Charge(add: Charging)
    | Keep(add: Charging)
    | Lock(ok: bool)
    | Update
    | Peek
    | Quit
    | Go

  predicate Overlap(c: nat, d: nat) { c < d + RECLEN && d < c + RECLEN }

  /** The system grants a lock that conflicts with no other process's. */
  ghost predicate Grantable(s: System, p: Pid, c: nat, kind: Kind) {
    forall q, d :: q in s.procs && q != p && d in s.procs[q].locks && Overlap(c, d) ==>
      kind == Shared && s.procs[q].locks[d] == Shared
  }

  ghost predicate LoginEnabled(s: System, p: Pid, me: Proc, st: LoginStep, a: Action) {
    match st
    case AtMutex => a.Acquire? && (a.ok ==> s.mutex == None)
    case AtLimits => a.FindLimit? && (a.limit.Some? ==> L.ValidKey(a.limit.value))
    case ScanRead => a.ReadV?
    case CreateLock => a.Lock? && (a.ok ==> Grantable(s, p, me.cursor, Exclusive))
    case SeekEnd(_) => a.Go? && L.ValidKey(me.key)
    case CreateWrite(_) => a.WriteV?
    case _ => a.Go?
  }

  ghost predicate SessionEnabled(s: System, p: Pid, me: Proc, st: SessionStep, a: Action) {
    match st
    case Idle => a.Update? || a.Peek? || a.Quit?
    case AtSharedLock => a.Lock? && (a.ok ==> Grantable(s, p, me.cursor, Shared))
    case AtLock => a.Lock? && (a.ok ==> Grantable(s, p, me.cursor, Exclusive))
    case PeekRead => a.ReadV?
    case AtRead => a.ReadV? || (a.Keep? && Sizes(a.add(CountersOf(me.mem))))
    case AtCharge => a.Charge? && Sizes(a.add(CountersOf(me.mem)))
    case AtWrite(_) => a.WriteV?
    case _ => a.Go?
  }

  ghost predicate Enabled(s: System, p: Pid, a: Action) {
    && p in s.procs
    && match s.procs[p].stage
       case Outside => a.Enter?
       case Login(st) => LoginEnabled(s, p, s.procs[p], st, a)
       case Session(st) => SessionEnabled(s, p, s.procs[p], st, a)
       case Gone => false
  }

  /** readv at the cursor: how many bytes come, and the record they are scattered into. */
  function Arriving(f: bytes, cursor: nat): nat {
    if cursor >= |f| then 0 else if cursor + RECLEN <= |f| then RECLEN else |f| - cursor
  }

  function Filled(f: bytes, me: Proc): Record {
    var n := Arriving(f, me.cursor);
    if n == 0 then me.mem else Scatter(f[me.cursor..me.cursor + n] + Gather(me.mem)[n..])
  }

  /** The read got something. */
  predicate Reads(f: bytes, me: Proc, a: Action) { a.ReadV? && a.io && Arriving(f, me.cursor) > 0 }

  function Locked(me: Proc, kind: Kind): Proc { me.(locks := me.locks[me.cursor := kind]) }

  function Unlocked(me: Proc): Proc { me.(locks := me.locks - {me.cursor}) }

  function LoginNext(f: bytes, me: Proc, st: LoginStep, a: Action): Proc
    requires st.SeekEnd? ==> L.ValidKey(me.key)
  {
    match st
    case AtMutex => me.(stage := Login(AtLimits))
    case AtLimits =>
      if a.FindLimit? && a.limit.Some? then me.(stage := Login(ScanRead), key := a.limit.value, cursor := HEADER)
      else me.(stage := Login(Unlimited))
    case ScanRead =>
      if Reads(f, me, a) then
        me.(stage := Login(ScanRewind(me.cursor)), cursor := me.cursor + Arriving(f, me.cursor), mem := Filled(f, me))
      else me.(stage := Login(CreateLock))
    case ScanRewind(start) => me.(stage := Login(Compare), cursor := start)
    case Compare =>
      if L.Fits(me.mem, me.key) then me.(stage := Login(Leaving(true)))
      else me.(stage := Login(ScanRead), cursor := me.cursor + RECLEN)
    case CreateLock =>
      if a.Lock? && a.ok then Locked(me, Exclusive).(stage := Login(SeekEnd(me.cursor)))
      else me.(stage := Login(Leaving(false)))
    case SeekEnd(at) => me.(stage := Login(CreateWrite(at)), cursor := |f|, mem := L.NewRecord(me.key))
    case CreateWrite(at) =>
      if a.WriteV? && a.ok then me.(stage := Login(CreateRewind(at, me.cursor)), cursor := me.cursor + RECLEN)
      else me.(stage := Login(CreateUnlock(at, false)))
    case CreateRewind(at, start) => me.(stage := Login(CreateUnlock(at, true)), cursor := start)
    case CreateUnlock(at, made) => Unlocked(me).(stage := Login(Leaving(made)))
    case Leaving(found) => me.(stage := if found then Session(Idle) else Gone)
    case Unlimited => me.(stage := Gone)
  }

  /** The structure in memory with a charge added. */
  function WithCharge(t: Record, add: Charging): Record
    requires Sizes(add(CountersOf(t)))
  {
    WithCounters(t, add(CountersOf(t)))
  }

  predicate Fitting(me: Proc, st: SessionStep, a: Action) {
    && (st.AtCharge? && a.Charge? ==> Sizes(a.add(CountersOf(me.mem))))
    && (st.AtRead? && a.Keep? ==> Sizes(a.add(CountersOf(me.mem))))
  }

  /** A limit per session is charged in memory alone, neither re-read nor stored. */
  function SessionNext(f: bytes, me: Proc, st: SessionStep, a: Action): Proc
    requires Fitting(me, st, a)
  {
    match st
    case Idle =>
      if a.Quit? then me.(stage := Gone, locks := map[])
      else me.(stage := Session(if a.Peek? then AtSharedLock else AtLock))
    case AtSharedLock =>
      if a.Lock? && a.ok then Locked(me, Shared).(stage := Session(PeekRead)) else me.(stage := Session(Idle))
    case PeekRead =>
      if Reads(f, me, a) then
        me.(stage := Session(PeekRewind(me.cursor)), cursor := me.cursor + Arriving(f, me.cursor), mem := Filled(f, me))
      else me.(stage := Session(AtSharedUnlock))
    case PeekRewind(start) => me.(stage := Session(AtSharedUnlock), cursor := start)
    case AtSharedUnlock => Unlocked(me).(stage := Session(Idle))
    case AtLock =>
      if a.Lock? && a.ok then Locked(me, Exclusive).(stage := Session(AtRead)) else me.(stage := Session(Idle))
    case AtRead =>
      if a.Keep? then me.(stage := Session(AtUnlock), mem := WithCharge(me.mem, a.add))
      else if Reads(f, me, a) then
        me.(stage := Session(ReadRewind(me.cursor)), cursor := me.cursor + Arriving(f, me.cursor), mem := Filled(f, me))
      else me.(stage := Session(AtCharge))
    case ReadRewind(start) => me.(stage := Session(AtCharge), cursor := start)
    case AtCharge =>
      if a.Charge? then me.(stage := Session(AtWrite(a.add)), mem := WithCharge(me.mem, a.add))
      else me
    case AtWrite(add) =>
      if a.WriteV? && a.ok then me.(stage := Session(WriteRewind(me.cursor)), cursor := me.cursor + RECLEN)
      else me.(stage := Session(AtUnlock))
    case WriteRewind(start) => me.(stage := Session(AtUnlock), cursor := start)
    case AtUnlock => Unlocked(me).(stage := Session(Idle))
  }

  predicate CanStep(me: Proc, a: Action) {
    && (me.stage.Login? && me.stage.login.SeekEnd? ==> L.ValidKey(me.key))
    && (me.stage.Session? ==> Fitting(me, me.stage.session, a))
  }

  function NextProc(f: bytes, me: Proc, a: Action): Proc
    requires CanStep(me, a)
  {
    match me.stage
    case Outside => me.(stage := Login(AtMutex))
    case Login(st) => LoginNext(f, me, st, a)
    case Session(st) => SessionNext(f, me, st, a)
    case Gone => me
  }

  predicate Creates(me: Proc, a: Action) { me.stage.Login? && me.stage.login.CreateWrite? && a.WriteV? && a.ok }

  predicate Stores(me: Proc, a: Action) { me.stage.Session? && me.stage.session.AtWrite? && a.WriteV? && a.ok }

  predicate Writes(me: Proc, a: Action) { Creates(me, a) || Stores(me, a) }

  function NextFile(f: bytes, me: Proc, a: Action): bytes {
    if Writes(me, a) then Splice(f, me.cursor, Gather(me.mem)) else f
  }

  predicate At(me: Proc, st: LoginStep) { me.stage == Login(st) }

  predicate LeavesLogin(me: Proc) { me.stage.Login? && (me.stage.login.Leaving? || me.stage.login.Unlimited?) }

  function NextMutex(m: Option<Pid>, p: Pid, me: Proc, a: Action): Option<Pid> {
    if At(me, AtMutex) && a.Acquire? && a.ok then Some(p)
    else if LeavesLogin(me) && m == Some(p) then None
    else m
  }

  ghost function Next(s: System, p: Pid, a: Action): System
    requires Enabled(s, p, a)
  {
    var me := s.procs[p];
    System(NextFile(s.file, me, a), NextMutex(s.mutex, p, me, a), s.procs[p := NextProc(s.file, me, a)],
           if Stores(me, a) then s.log + [Commit(Index(me.cursor), me.stage.session.add)] else s.log,
           s.mutexHeld && (At(me, AtMutex) ==> a.ok),
           s.scansRead && (At(me, ScanRead) ==> a.io),
           s.updatesRead && (me.stage == Session(AtRead) && a.ReadV? ==> a.io))
  }

  ghost predicate Start(s: System) {
    && WellFormed(s.file) && s.mutex == None && s.log == [] && s.mutexHeld && s.scansRead && s.updatesRead
    && forall p :: p in s.procs ==> s.procs[p].stage == Outside && s.procs[p].locks == map[]
  }

  ghost predicate Runs(s: System, steps: seq<(Pid, Action)>)
    decreases |steps|
  {
    |steps| == 0 || (Enabled(s, steps[0].0, steps[0].1) && Runs(Next(s, steps[0].0, steps[0].1), steps[1..]))
  }

  ghost function After(s: System, steps: seq<(Pid, Action)>): System
    requires Runs(s, steps)
    decreases |steps|
  {
    if |steps| == 0 then s else After(Next(s, steps[0].0, steps[0].1), steps[1..])
  }

  // ---------------------------------------------------------------------------
  // Where the cursor is

  predicate OnGrid(c: nat) { c >= HEADER && (c - HEADER) % RECLEN == 0 }

  function Index(c: nat): nat { if c < HEADER then 0 else (c - HEADER) / RECLEN }

  predicate Rewinding(st: SessionStep) { st.PeekRewind? || st.ReadRewind? || st.WriteRewind? }

  /** Where a session's cursor is, or will be once it has been rewound. */
  function Home(me: Proc): nat {
    if me.stage.Session? && Rewinding(me.stage.session) then me.stage.session.start else me.cursor
  }

  ghost predicate LoginPlaced(f: bytes, me: Proc, st: LoginStep) {
    match st
    case AtMutex | AtLimits | Unlimited => true
    case ScanRead | CreateLock => L.ValidKey(me.key) && OnGrid(me.cursor) && me.cursor <= |f|
    case ScanRewind(start) => L.ValidKey(me.key) && OnGrid(start) && start < |f| && me.cursor == start + RECLEN
    case Compare => L.ValidKey(me.key) && OnGrid(me.cursor) && me.cursor < |f|
    case SeekEnd(at) => L.ValidKey(me.key) && OnGrid(at) && at == me.cursor <= |f|
    case CreateWrite(at) =>
      L.ValidKey(me.key) && OnGrid(at) && OnGrid(me.cursor) && at <= me.cursor <= |f| && me.mem == L.NewRecord(me.key)
    case CreateRewind(at, start) =>
      L.ValidKey(me.key) && OnGrid(at) && OnGrid(start) && at <= start < |f| && me.cursor == start + RECLEN
    case CreateUnlock(at, made) =>
      L.ValidKey(me.key) && OnGrid(at) && OnGrid(me.cursor) && at <= me.cursor <= |f| && (made ==> me.cursor < |f|)
    case Leaving(found) => found ==> L.ValidKey(me.key) && OnGrid(me.cursor) && me.cursor < |f|
  }

  ghost predicate SessionPlaced(f: bytes, me: Proc, st: SessionStep) {
    && L.ValidKey(me.key) && OnGrid(Home(me)) && Home(me) < |f|
    && (Rewinding(st) ==> me.cursor == Home(me) + RECLEN)
  }

  /** The process stands where its stage says: at a record, or at the end of the table. */
  ghost predicate Placed(f: bytes, me: Proc) {
    match me.stage
    case Login(st) => LoginPlaced(f, me, st)
    case Session(st) => SessionPlaced(f, me, st)
    case _ => true
  }

  ghost predicate AllPlaced(s: System) {
    WellFormed(s.file) && forall p :: p in s.procs ==> Placed(s.file, s.procs[p])
  }

  lemma GridIsPos(c: nat)
    requires OnGrid(c)
    ensures c == Pos(Index(c))
  {
  }

  /** Ranges on the grid are the same or apart. */
  lemma GridOverlap(c: nat, d: nat)
    requires OnGrid(c) && OnGrid(d)
    ensures Overlap(c, d) <==> c == d
  {
    GridIsPos(c);
    GridIsPos(d);
    if Index(c) != Index(d) {
      RecordsAreDisjoint(Index(c), Index(d));
    }
  }

  /** A record written on the grid replaces one record or is appended. */
  lemma WriteOnGrid(f: bytes, c: nat, t: Record)
    requires WellFormed(f) && OnGrid(c) && c <= |f|
    ensures var f' := Splice(f, c, Gather(t));
            && WellFormed(f') && |f'| == (if c == |f| then |f| + RECLEN else |f|)
            && (c == |f| ==> Index(c) == Count(f) && Table(f') == Table(f) + [t])
            && (c < |f| ==> Index(c) < Count(f) && Table(f') == Table(f)[Index(c) := t])
  {
    GridIsPos(c);
    if c == |f| {
      assert Splice(f, c, Gather(t)) == f + Gather(t);
      CreateAppendsRecord(f, t);
    } else {
      WriteReplacesOneRecord(f, Index(c), t);
    }
  }

  lemma ReadOnGrid(f: bytes, me: Proc)
    requires WellFormed(f) && OnGrid(me.cursor) && me.cursor < |f|
    ensures Arriving(f, me.cursor) == RECLEN && Index(me.cursor) < Count(f)
    ensures Filled(f, me) == Table(f)[Index(me.cursor)]
  {
    GridIsPos(me.cursor);
    var c := me.cursor;
    assert f[c..c + RECLEN] + Gather(me.mem)[RECLEN..] == f[c..c + RECLEN];
  }

  lemma GridNext(f: bytes, c: nat)
    requires WellFormed(f) && OnGrid(c) && c < |f|
    ensures OnGrid(c + RECLEN) && c + RECLEN <= |f| && Index(c + RECLEN) == Index(c) + 1 && Index(c) < Count(f)
  {
  }

  lemma EndOnGrid(f: bytes)
    requires WellFormed(f)
    ensures OnGrid(|f|) && Index(|f|) == Count(f) && OnGrid(HEADER) && Index(HEADER) == 0
  {
  }

  /** The file after a step of a process in its place: a table still, and never shorter. */
  lemma FileStep(f: bytes, me: Proc, a: Action)
    requires WellFormed(f) && Placed(f, me)
    ensures WellFormed(NextFile(f, me, a)) && |NextFile(f, me, a)| >= |f|
    ensures Writes(me, a) ==> me.cursor < |NextFile(f, me, a)|
  {
    if Writes(me, a) {
      WriteOnGrid(f, me.cursor, me.mem);
    }
  }

  lemma ReadPlace(f: bytes, me: Proc, st: SessionStep, a: Action, f': bytes)
    requires WellFormed(f) && me.stage == Session(st) && SessionPlaced(f, me, st) && CanStep(me, a) && |f'| >= |f|
    requires st.PeekRead? || st.AtRead?
    ensures Placed(f', SessionNext(f, me, st, a))
  {
    ReadOnGrid(f, me);
  }

  lemma SessionPlace(f: bytes, me: Proc, st: SessionStep, a: Action, f': bytes)
    requires WellFormed(f) && me.stage == Session(st) && SessionPlaced(f, me, st) && CanStep(me, a) && |f'| >= |f|
    ensures Placed(f', SessionNext(f, me, st, a))
  {
    if st.PeekRead? || st.AtRead? {
      ReadPlace(f, me, st, a, f');
    }
  }

  lemma ScanPlace(f: bytes, me: Proc, st: LoginStep, a: Action, f': bytes)
    requires WellFormed(f) && me.stage == Login(st) && LoginPlaced(f, me, st) && |f'| >= |f|
    requires st.ScanRead? || st.ScanRewind? || st.Compare?
    ensures Placed(f', LoginNext(f, me, st, a))
  {
    if st.ScanRead? && me.cursor < |f| {
      ReadOnGrid(f, me);
    }
    if st.Compare? {
      GridNext(f, me.cursor);
    }
  }

  lemma CreatePlace(f: bytes, me: Proc, st: LoginStep, a: Action, f': bytes)
    requires WellFormed(f) && me.stage == Login(st) && LoginPlaced(f, me, st)
    requires |f'| >= |f| && (Writes(me, a) ==> me.cursor < |f'|)
    requires st.CreateLock? || st.SeekEnd? || st.CreateWrite? || st.CreateRewind? || st.CreateUnlock?
    ensures Placed(f', LoginNext(f, me, st, a))
  {
    EndOnGrid(f);
  }

  lemma LoginPlace(f: bytes, me: Proc, st: LoginStep, a: Action, f': bytes)
    requires WellFormed(f) && me.stage == Login(st) && LoginPlaced(f, me, st)
    requires |f'| >= |f| && (Writes(me, a) ==> me.cursor < |f'|)
    requires st.AtLimits? && a.FindLimit? && a.limit.Some? ==> L.ValidKey(a.limit.value)
    ensures Placed(f', LoginNext(f, me, st, a))
  {
    match st {
      case AtLimits => EndOnGrid(f);
      case AtMutex =>
      case Leaving(_) =>
      case Unlimited =>
      case ScanRead => ScanPlace(f, me, st, a, f');
      case ScanRewind(_) => ScanPlace(f, me, st, a, f');
      case Compare => ScanPlace(f, me, st, a, f');
      case _ => CreatePlace(f, me, st, a, f');
    }
  }

  /** A process that does not step keeps its place: the table never shrinks. */
  lemma OtherPlace(f: bytes, me: Proc, f': bytes)
    requires Placed(f, me) && |f'| >= |f|
    ensures Placed(f', me)
  {
  }

  lemma OwnPlace(f: bytes, me: Proc, a: Action)
    requires WellFormed(f) && Placed(f, me) && CanStep(me, a)
    requires At(me, AtLimits) && a.FindLimit? && a.limit.Some? ==> L.ValidKey(a.limit.value)
    ensures Placed(NextFile(f, me, a), NextProc(f, me, a))
  {
    FileStep(f, me, a);
    match me.stage {
      case Login(st) => LoginPlace(f, me, st, a, NextFile(f, me, a));
      case Session(st) => SessionPlace(f, me, st, a, NextFile(f, me, a));
      case _ =>
    }
  }

  lemma PlacedStep(s: System, p: Pid, a: Action)
    requires AllPlaced(s) && Enabled(s, p, a)
    ensures AllPlaced(Next(s, p, a)) && |Next(s, p, a).file| >= |s.file|
  {
    var s' := Next(s, p, a);
    FileStep(s.file, s.procs[p], a);
    forall q | q in s'.procs
      ensures Placed(s'.file, s'.procs[q])
    {
      if q == p {
        OwnPlace(s.file, s.procs[p], a);
      } else {
        OtherPlace(s.file, s.procs[q], s'.file);
      }
    }
  }

  lemma {:induction false} AllPlacedAlongRun(s: System, steps: seq<(Pid, Action)>)
    requires AllPlaced(s) && Runs(s, steps)
    ensures AllPlaced(After(s, steps)) && |After(s, steps).file| >= |s.file|
    decreases |steps|
  {
    if |steps| != 0 {
      PlacedStep(s, steps[0].0, steps[0].1);
      AllPlacedAlongRun(Next(s, steps[0].0, steps[0].1), steps[1..]);
    }
  }

  /** A step leaves a session at its place, or ends it. */
  lemma HomeStep(f: bytes, me: Proc, st: SessionStep, a: Action)
    requires me.stage == Session(st) && SessionPlaced(f, me, st) && CanStep(me, a)
    ensures var me' := SessionNext(f, me, st, a);
            me'.stage == Gone || (me'.stage.Session? && me'.key == me.key && Home(me') == Home(me))
  {
  }

  lemma {:induction false} GoneStays(s: System, steps: seq<(Pid, Action)>, p: Pid)
    requires Runs(s, steps) && p in s.procs && s.procs[p].stage == Gone
    ensures p in After(s, steps).procs && After(s, steps).procs[p].stage == Gone
    decreases |steps|
  {
    if |steps| != 0 {
      GoneStays(Next(s, steps[0].0, steps[0].1), steps[1..], p);
    }
  }

  /** From login to exit, in every interleaving and with or without the mutex, the cursor of a
  session is at the start of one and the same record whenever it locks, reads, charges,
  writes or unlocks, before a command as well as after it, and one record further only
  between a transfer and its rewind. */
  lemma {:induction false} CursorStaysAtOneRecord(s: System, steps: seq<(Pid, Action)>, p: Pid)
    requires AllPlaced(s) && Runs(s, steps) && p in s.procs && s.procs[p].stage.Session?
    ensures AllPlaced(After(s, steps)) && p in After(s, steps).procs
    ensures var me' := After(s, steps).procs[p];
            var k := Index(Home(s.procs[p]));
            && k < Count(s.file) <= Count(After(s, steps).file)
            && (me'.stage != Gone ==>
                  && me'.stage.Session? && me'.key == s.procs[p].key
                  && me'.cursor == if Rewinding(me'.stage.session) then Pos(k + 1) else Pos(k))
    decreases |steps|
  {
    var me := s.procs[p];
    assert Placed(s.file, me);
    GridIsPos(Home(me));
    if |steps| != 0 {
      var s1 := Next(s, steps[0].0, steps[0].1);
      PlacedStep(s, steps[0].0, steps[0].1);
      if steps[0].0 == p {
        HomeStep(s.file, me, me.stage.session, steps[0].1);
      }
      if s1.procs[p].stage == Gone {
        GoneStays(s1, steps[1..], p);
        AllPlacedAlongRun(s1, steps[1..]);
      } else {
        CursorStaysAtOneRecord(s1, steps[1..], p);
      }
    }
  }
}
