/** What goes wrong on the bytes when a login does not get the mutex, or its scan fails.

Two creations that lock different places may still write at one: each locks where its scan
ended and writes where the file ends when it seeks.
*/
module TallyCollision {
  import opened Optional
  import opened TallyFile
  import opened TallySessions
  import opened TallyLocks
  import opened TallyKeys
  import L = Login

  /** A creation written where the end of the file used to be keeps every record's name and
  type if and only if it is still the end, or the record there is already its own. */
  lemma CreateKeepsTagsIff(f: bytes, c: nat, t: Record)
    requires WellFormed(f) && OnGrid(c) && c <= |f|
    ensures c < |f| ==> Index(c) < Count(f)
    ensures TagsKept(f, Splice(f, c, Gather(t))) <==> c == |f| || SameTag(t, Table(f)[Index(c)])
  {
    WriteOnGrid(f, c, t);
    var f' := Splice(f, c, Gather(t));
    if c < |f| {
      assert Table(f')[Index(c)] == t;
    }
  }

  // ---------------------------------------------------------------------------
  // Building runs

  ghost predicate Reaches(s: System, t: System) { exists steps :: Runs(s, steps) && After(s, steps) == t }

  lemma {:induction false} Extend(s: System, steps: seq<(Pid, Action)>, p: Pid, a: Action)
    requires Runs(s, steps) && Enabled(After(s, steps), p, a)
    ensures Runs(s, steps + [(p, a)]) && After(s, steps + [(p, a)]) == Next(After(s, steps), p, a)
    decreases |steps|
  {
    var all := steps + [(p, a)];
    if |steps| != 0 {
      assert all[1..] == steps[1..] + [(p, a)];
      Extend(Next(s, steps[0].0, steps[0].1), steps[1..], p, a);
    }
  }

  lemma ReachesNext(s: System, t: System, p: Pid, a: Action)
    requires Reaches(s, t) && Enabled(t, p, a)
    ensures Reaches(s, Next(t, p, a))
  {
    var steps :| Runs(s, steps) && After(s, steps) == t;
    Extend(s, steps, p, a);
  }

  /** What holds of a state and of all its successors. */
  ghost predicate Closed(r: System -> bool) {
    forall t, p, a :: r(t) && Enabled(t, p, a) ==> r(Next(t, p, a))
  }

  lemma ReachesClosed(s: System) returns (r: System -> bool)
    ensures Closed(r) && r(s) && forall t :: r(t) ==> Reaches(s, t)
  {
    r := t => Reaches(s, t);
    forall t, p, a | r(t) && Enabled(t, p, a)
      ensures r(Next(t, p, a))
    {
      ReachesNext(s, t, p, a);
    }
    assert Runs(s, []) && After(s, []) == s;
  }

  /** Whether the logins so far got the mutex, and who has it. */
  datatype Gate = Gate(mutex: Option<Pid>, held: bool, scans: bool)

  function Of(ps: seq<Proc>, f: bytes, g: Gate): System {
    System(f, g.mutex, map i: Pid | 0 <= i < |ps| :: ps[i], [], g.held, g.scans, true)
  }

  function NextGate(g: Gate, p: Pid, me: Proc, a: Action): Gate {
    Gate(NextMutex(g.mutex, p, me, a),
         g.held && (At(me, AtMutex) ==> a.Acquire? && a.ok), g.scans && (At(me, ScanRead) ==> a.ReadV? && a.io))
  }

  /** One step of process p, which is still in its login. */
  lemma Advance(r: System -> bool, ps: seq<Proc>, f: bytes, g: Gate, p: Pid, a: Action, me': Proc)
    requires p < |ps| && Closed(r) && r(Of(ps, f, g)) && Enabled(Of(ps, f, g), p, a) && !ps[p].stage.Session?
    requires me' == NextProc(f, ps[p], a)
    ensures r(Of(ps[p := me'], NextFile(f, ps[p], a), NextGate(g, p, ps[p], a)))
  {
    var t := Of(ps, f, g);
    assert r(Next(t, p, a));
    assert t.procs[p := me'] == Of(ps[p := me'], f, g).procs;
  }

  // ---------------------------------------------------------------------------
  // Pieces of logins

  const ALICE: Key := L.Key(UserQuota, [97])
  const BOB: Key := L.Key(UserQuota, [98])
  const CAROL: Key := L.Key(UserQuota, [99])

  function Blank(): Record { L.NewRecord(ALICE) }

  function Newcomer(): Proc { Proc(Outside, ALICE, 0, Blank(), map[]) }

  function Doing(st: LoginStep, key: Key, cursor: nat, mem: Record): Proc { Proc(Login(st), key, cursor, mem, map[]) }

  /** The login enters and asks for the mutex. */
  lemma Asks(r: System -> bool, ps: seq<Proc>, f: bytes, g: Gate, p: Pid, ok: bool)
    requires p < |ps| && ps[p] == Newcomer() && Closed(r) && r(Of(ps, f, g)) && g.mutex == None
    ensures r(Of(ps[p := Doing(AtLimits, ALICE, 0, Blank())], f, Gate(if ok then Some(p) else None, g.held && ok, g.scans)))
  {
    var m1, m2 := Doing(AtMutex, ALICE, 0, Blank()), Doing(AtLimits, ALICE, 0, Blank());
    Advance(r, ps, f, g, p, Enter, m1);
    Advance(r, ps[p := m1], f, g, p, Acquire(ok), m2);
    assert ps[p := m1][p := m2] == ps[p := m2];
  }

  /** It finds its limit and starts to scan. */
  lemma Enters(r: System -> bool, ps: seq<Proc>, f: bytes, g: Gate, p: Pid, key: Key, ok: bool)
    requires p < |ps| && ps[p] == Newcomer() && L.ValidKey(key) && Closed(r) && r(Of(ps, f, g)) && g.mutex == None
    ensures r(Of(ps[p := Doing(ScanRead, key, HEADER, Blank())], f,
                 Gate(if ok then Some(p) else None, g.held && ok, g.scans)))
  {
    var m2, m3 := Doing(AtLimits, ALICE, 0, Blank()), Doing(ScanRead, key, HEADER, Blank());
    Asks(r, ps, f, g, p, ok);
    Advance(r, ps[p := m2], f, Gate(if ok then Some(p) else None, g.held && ok, g.scans), p, FindLimit(Some(key)), m3);
    assert ps[p := m2][p := m3] == ps[p := m3];
  }

  /** The scan stops at the end of the file, or at a read error. */
  lemma ScanStops(r: System -> bool, ps: seq<Proc>, f: bytes, g: Gate, p: Pid, io: bool)
    requires p < |ps| && At(ps[p], ScanRead) && Closed(r) && r(Of(ps, f, g)) && (io ==> ps[p].cursor >= |f|)
    ensures r(Of(ps[p := ps[p].(stage := Login(CreateLock))], f, g.(scans := g.scans && io)))
  {
    Advance(r, ps, f, g, p, ReadV(io), ps[p].(stage := Login(CreateLock)));
  }

  function Seeking(me: Proc, f: bytes): Proc
    requires L.ValidKey(me.key)
  {
    Proc(Login(CreateWrite(me.cursor)), me.key, |f|, L.NewRecord(me.key), map[me.cursor := Exclusive])
  }

  /** The creation locks where the scan ended and seeks the end. */
  lemma LocksAndSeeks(r: System -> bool, ps: seq<Proc>, f: bytes, g: Gate, p: Pid)
    requires p < |ps| && At(ps[p], CreateLock) && ps[p].locks == map[] && L.ValidKey(ps[p].key) && Closed(r) && r(Of(ps, f, g))
    requires Grantable(Of(ps, f, g), p, ps[p].cursor, Exclusive)
    ensures r(Of(ps[p := Seeking(ps[p], f)], f, g))
  {
    var me := ps[p];
    var m1 := me.(stage := Login(SeekEnd(me.cursor)), locks := map[me.cursor := Exclusive]);
    Advance(r, ps, f, g, p, Lock(true), m1);
    Advance(r, ps[p := m1], f, g, p, Go, Seeking(me, f));
    assert ps[p := m1][p := Seeking(me, f)] == ps[p := Seeking(me, f)];
  }

  lemma WritesRecord(r: System -> bool, ps: seq<Proc>, f: bytes, g: Gate, p: Pid, at: nat)
    requires p < |ps| && At(ps[p], CreateWrite(at)) && Closed(r) && r(Of(ps, f, g))
    ensures var me := ps[p];
            r(Of(ps[p := me.(stage := Login(CreateRewind(at, me.cursor)), cursor := me.cursor + RECLEN)],
                          Splice(f, me.cursor, Gather(me.mem)), g))
  {
    var me := ps[p];
    Advance(r, ps, f, g, p, WriteV(true), me.(stage := Login(CreateRewind(at, me.cursor)), cursor := me.cursor + RECLEN));
  }

  /** The creation rewinds and unlocks where it has written. */
  lemma Unlocks(r: System -> bool, ps: seq<Proc>, f: bytes, g: Gate, p: Pid, at: nat, start: nat)
    requires p < |ps| && At(ps[p], CreateRewind(at, start)) && Closed(r) && r(Of(ps, f, g))
    ensures r(Of(ps[p := ps[p].(stage := Login(Leaving(true)), cursor := start, locks := ps[p].locks - {start})], f, g))
  {
    var m1 := ps[p].(stage := Login(CreateUnlock(at, true)), cursor := start);
    var m2 := m1.(stage := Login(Leaving(true)), locks := m1.locks - {start});
    Advance(r, ps, f, g, p, Go, m1);
    Advance(r, ps[p := m1], f, g, p, Go, m2);
    assert ps[p := m1][p := m2] == ps[p := m2];
  }

  /** Then the session begins. */
  lemma Finishes(r: System -> bool, ps: seq<Proc>, f: bytes, g: Gate, p: Pid, at: nat, start: nat)
    requires p < |ps| && At(ps[p], CreateRewind(at, start)) && Closed(r) && r(Of(ps, f, g))
    requires g.mutex == None || g.mutex == Some(p)
    ensures r(Of(ps[p := ps[p].(stage := Session(Idle), cursor := start, locks := ps[p].locks - {start})], f,
                 g.(mutex := None)))
  {
    var m2 := ps[p].(stage := Login(Leaving(true)), cursor := start, locks := ps[p].locks - {start});
    var m3 := m2.(stage := Session(Idle));
    Unlocks(r, ps, f, g, p, at, start);
    Advance(r, ps[p := m2], f, g, p, Go, m3);
    assert ps[p := m2][p := m3] == ps[p := m3];
  }

  // ---------------------------------------------------------------------------
  // A scan that meets a read error

  function OneRecord(key: Key): bytes
    requires L.ValidKey(key)
  {
    TALLY_MAGIC + Gather(L.NewRecord(key))
  }

  lemma OneRecordTable(key: Key)
    requires L.ValidKey(key)
    ensures WellFormed(OneRecord(key)) && |OneRecord(key)| == HEADER + RECLEN && Table(OneRecord(key)) == [L.NewRecord(key)]
    ensures Splice(TALLY_MAGIC, HEADER, Gather(L.NewRecord(key))) == OneRecord(key)
  {
    assert Table(TALLY_MAGIC) == [];
    assert Splice(TALLY_MAGIC, HEADER, Gather(L.NewRecord(key))) == OneRecord(key);
    CreateAppendsRecord(TALLY_MAGIC, L.NewRecord(key));
  }

  /** The login of ALICE on the table of CAROL, up to the lock. */
  lemma ErrorInScan(r: System -> bool, f: bytes)
    requires Closed(r) && r(Of([Newcomer()], f, Gate(None, true, true)))
    ensures r(Of([Doing(CreateLock, ALICE, HEADER, Blank())], f, Gate(Some(0), true, false)))
  {
    var me, stopped := Doing(ScanRead, ALICE, HEADER, Blank()), Doing(CreateLock, ALICE, HEADER, Blank());
    Enters(r, [Newcomer()], f, Gate(None, true, true), 0, ALICE, true);
    assert [Newcomer()][0 := me] == [me];
    ScanStops(r, [me], f, Gate(Some(0), true, true), 0, false);
    assert [me][0 := stopped] == [stopped];
  }

  /** It locks the record where the scan stopped, and unlocks the one it has written. */
  lemma ErrorThenCreate(r: System -> bool, f: bytes)
    requires |f| > HEADER && Closed(r)
    requires r(Of([Doing(CreateLock, ALICE, HEADER, Blank())], f, Gate(Some(0), true, false)))
    ensures r(Of([Straying(|f|)], Splice(f, |f|, Gather(L.NewRecord(ALICE))), Gate(None, true, false)))
  {
    var me, g := Doing(CreateLock, ALICE, HEADER, Blank()), Gate(Some(0), true, false);
    var locked := Seeking(me, f);
    LocksAndSeeks(r, [me], f, g, 0);
    assert [me][0 := locked] == [locked];
    WritesRecord(r, [locked], f, g, 0, HEADER);
    var written := locked.(stage := Login(CreateRewind(HEADER, |f|)), cursor := |f| + RECLEN);
    assert [locked][0 := written] == [written];
    Finishes(r, [written], Splice(f, |f|, Gather(L.NewRecord(ALICE))), g, 0, HEADER, |f|);
    assert written.locks - {|f|} == written.locks;
    assert [written][0 := Straying(|f|)] == [Straying(|f|)];
  }

  /** A session of ALICE at c that still has the first record of the table locked. */
  function Straying(c: nat): Proc { Proc(Session(Idle), ALICE, c, L.NewRecord(ALICE), map[HEADER := Exclusive]) }

  lemma LockedOut(t: System)
    requires 0 in t.procs && HEADER in t.procs[0].locks && t.procs[0].locks[HEADER] == Exclusive
    ensures forall q, kind :: q != 0 ==> !Grantable(t, q, Pos(0), kind)
  {
    assert Overlap(HEADER, HEADER);
  }

  /** Even under the mutex: a login whose scan meets a read error at the record of another user
  goes on to a session that keeps that record locked, so that nobody else can lock it. */
  lemma FailedScanKeepsLock() returns (s: System, t: System)
    ensures Start(s) && Reaches(s, t) && t.mutexHeld && t.mutex == None
    ensures 0 in t.procs && t.procs[0].stage == Session(Idle) && WellFormed(t.file) && Count(t.file) == 2
    ensures L.Fits(Table(t.file)[0], CAROL) && !L.Fits(Table(t.file)[0], t.procs[0].key)
    ensures forall q, kind :: q != 0 ==> !Grantable(t, q, Pos(0), kind)
  {
    var f := OneRecord(CAROL);
    OneRecordTable(CAROL);
    WriteOnGrid(f, |f|, L.NewRecord(ALICE));
    TestKeys();
    s := Of([Newcomer()], f, Gate(None, true, true));
    t := Of([Straying(|f|)], Splice(f, |f|, Gather(L.NewRecord(ALICE))), Gate(None, true, false));
    var r := ReachesClosed(s);
    ErrorInScan(r, f);
    ErrorThenCreate(r, f);
    LockedOut(t);
    NewcomersStart([Newcomer()], f);
  }

  lemma TestKeys()
    ensures L.Fits(L.NewRecord(CAROL), CAROL) && !L.Fits(L.NewRecord(CAROL), ALICE)
    ensures !L.Fits(L.NewRecord(CAROL), BOB) && !L.Fits(L.NewRecord(BOB), ALICE)
  {
    L.CStringOfPadded(CAROL.name, NAMELEN - 1);
    L.CStringOfPadded(BOB.name, NAMELEN - 1);
  }

  // ---------------------------------------------------------------------------
  // Three logins without the mutex

  const OPEN: Gate := Gate(None, false, true)

  /** The first login scans an empty table; the third one creates its record and is done. */
  lemma ScanBeforeCreation(r: System -> bool)
    requires Closed(r) && r(Of([Newcomer(), Newcomer(), Newcomer()], TALLY_MAGIC, Gate(None, true, true)))
    ensures r(Of([Doing(CreateLock, ALICE, HEADER, Blank()), Newcomer(), Settled()], OneRecord(CAROL), OPEN))
  {
    var a0, a1, n := Doing(ScanRead, ALICE, HEADER, Blank()), Doing(CreateLock, ALICE, HEADER, Blank()), Newcomer();
    var c0, c1 := Doing(ScanRead, CAROL, HEADER, Blank()), Doing(CreateLock, CAROL, HEADER, Blank());
    var f := TALLY_MAGIC;
    Enters(r, [n, n, n], f, Gate(None, true, true), 0, ALICE, false);
    assert [n, n, n][0 := a0] == [a0, n, n];
    ScanStops(r, [a0, n, n], f, OPEN, 0, true);
    assert [a0, n, n][0 := a1] == [a1, n, n];
    Enters(r, [a1, n, n], f, OPEN, 2, CAROL, false);
    assert [a1, n, n][2 := c0] == [a1, n, c0];
    ScanStops(r, [a1, n, c0], f, OPEN, 2, true);
    assert [a1, n, c0][2 := c1] == [a1, n, c1];
    ThirdCreates(r, a1, n, c1);
  }

  function Settled(): Proc { Proc(Session(Idle), CAROL, HEADER, L.NewRecord(CAROL), map[]) }

  lemma ThirdCreates(r: System -> bool, a: Proc, b: Proc, c: Proc)
    requires a.locks == map[] && b.locks == map[] && c == Doing(CreateLock, CAROL, HEADER, Blank())
    requires Closed(r) && r(Of([a, b, c], TALLY_MAGIC, OPEN))
    ensures r(Of([a, b, Settled()], OneRecord(CAROL), OPEN))
  {
    var f := TALLY_MAGIC;
    LocksAndSeeks(r, [a, b, c], f, OPEN, 2);
    var c1 := Seeking(c, f);
    assert [a, b, c][2 := c1] == [a, b, c1];
    WritesRecord(r, [a, b, c1], f, OPEN, 2, HEADER);
    var c2 := c1.(stage := Login(CreateRewind(HEADER, HEADER)), cursor := HEADER + RECLEN);
    assert [a, b, c1][2 := c2] == [a, b, c2];
    OneRecordTable(CAROL);
    Finishes(r, [a, b, c2], OneRecord(CAROL), OPEN, 2, HEADER, HEADER);
    assert c2.locks - {HEADER} == map[];
    assert [a, b, c2][2 := Settled()] == [a, b, Settled()];
  }

  /** A scan reads the first record, which is another's, and seeks on. */
  lemma PassesRecord(r: System -> bool, a: Proc, b: Proc, c: Proc, f: bytes, m: Record)
    requires WellFormed(f) && Count(f) > 0 && Table(f)[0] == m && !L.Fits(m, BOB)
    requires b == Doing(ScanRead, BOB, HEADER, Blank()) && Closed(r) && r(Of([a, b, c], f, OPEN))
    ensures r(Of([a, Doing(ScanRead, BOB, HEADER + RECLEN, m), c], f, OPEN))
  {
    ReadOnGrid(f, b);
    var b1, b2 := Doing(ScanRewind(HEADER), BOB, HEADER + RECLEN, m), Doing(Compare, BOB, HEADER, m);
    Advance(r, [a, b, c], f, OPEN, 1, ReadV(true), b1);
    assert [a, b, c][1 := b1] == [a, b1, c];
    Advance(r, [a, b1, c], f, OPEN, 1, Go, b2);
    assert [a, b1, c][1 := b2] == [a, b2, c];
    var b3 := Doing(ScanRead, BOB, HEADER + RECLEN, m);
    Advance(r, [a, b2, c], f, OPEN, 1, Go, b3);
    assert [a, b2, c][1 := b3] == [a, b3, c];
  }

  /** The second login passes the new record and comes to the new end. */
  lemma ScanAfterCreation(r: System -> bool, a: Proc, c: Proc)
    requires Closed(r) && r(Of([a, Newcomer(), c], OneRecord(CAROL), OPEN))
    ensures r(Of([a, Doing(CreateLock, BOB, HEADER + RECLEN, L.NewRecord(CAROL)), c], OneRecord(CAROL), OPEN))
  {
    var f, m := OneRecord(CAROL), L.NewRecord(CAROL);
    OneRecordTable(CAROL);
    TestKeys();
    var b := Doing(ScanRead, BOB, HEADER, Blank());
    Enters(r, [a, Newcomer(), c], f, OPEN, 1, BOB, false);
    assert [a, Newcomer(), c][1 := b] == [a, b, c];
    PassesRecord(r, a, b, c, f, m);
    var b3, b4 := Doing(ScanRead, BOB, HEADER + RECLEN, m), Doing(CreateLock, BOB, HEADER + RECLEN, m);
    ScanStops(r, [a, b3, c], f, OPEN, 1, true);
    assert [a, b3, c][1 := b4] == [a, b4, c];
  }

  /** Each locks where its scan ended, which is granted, and both seek the same end. */
  lemma BothSeek(r: System -> bool, a: Proc, b: Proc, c: Proc, f: bytes)
    requires a == Doing(CreateLock, ALICE, HEADER, Blank()) && c.locks == map[]
    requires b == Doing(CreateLock, BOB, HEADER + RECLEN, b.mem)
    requires Closed(r) && r(Of([a, b, c], f, OPEN))
    ensures r(Of([Seeking(a, f), Seeking(b, f), c], f, OPEN))
  {
    LocksAndSeeks(r, [a, b, c], f, OPEN, 0);
    var a1, b1 := Seeking(a, f), Seeking(b, f);
    assert [a, b, c][0 := a1] == [a1, b, c];
    LocksAndSeeks(r, [a1, b, c], f, OPEN, 1);
    assert [a1, b, c][1 := b1] == [a1, b1, c];
  }

  /** Both write there, and the first one goes on to its session. */
  lemma BothWrite(r: System -> bool, a: Proc, b: Proc, c: Proc, f: bytes, f1: bytes, f2: bytes)
    requires a.stage == Login(CreateWrite(HEADER)) && b.stage == Login(CreateWrite(HEADER + RECLEN))
    requires f1 == Splice(f, a.cursor, Gather(a.mem)) && f2 == Splice(f1, b.cursor, Gather(b.mem))
    requires Closed(r) && r(Of([a, b, c], f, OPEN))
    ensures exists b2 :: r(Of([a.(stage := Session(Idle), locks := a.locks - {a.cursor}), b2, c], f2, OPEN))
  {
    var a1 := a.(stage := Login(CreateRewind(HEADER, a.cursor)), cursor := a.cursor + RECLEN);
    var b1 := b.(stage := Login(CreateRewind(HEADER + RECLEN, b.cursor)), cursor := b.cursor + RECLEN);
    WritesRecord(r, [a, b, c], f, OPEN, 0, HEADER);
    assert [a, b, c][0 := a1] == [a1, b, c];
    WritesRecord(r, [a1, b, c], f1, OPEN, 1, HEADER + RECLEN);
    assert [a1, b, c][1 := b1] == [a1, b1, c];
    Finishes(r, [a1, b1, c], f2, OPEN, 0, HEADER, a.cursor);
    var a2 := a.(stage := Session(Idle), locks := a.locks - {a.cursor});
    assert [a1, b1, c][0 := a2] == [a2, b1, c];
  }

  /** The three logins together. */
  lemma Collide(r: System -> bool, f: bytes, f1: bytes, f2: bytes) returns (b2: Proc)
    requires Closed(r) && r(Of([Newcomer(), Newcomer(), Newcomer()], TALLY_MAGIC, Gate(None, true, true)))
    requires f == OneRecord(CAROL) && |f| == HEADER + RECLEN
    requires f1 == Splice(f, |f|, Gather(L.NewRecord(ALICE))) && f2 == Splice(f1, |f|, Gather(L.NewRecord(BOB)))
    ensures r(Of([Straying(|f|), b2, Settled()], f2, OPEN))
  {
    var a, b := Doing(CreateLock, ALICE, HEADER, Blank()), Doing(CreateLock, BOB, HEADER + RECLEN, L.NewRecord(CAROL));
    ScanBeforeCreation(r);
    ScanAfterCreation(r, a, Settled());
    BothSeek(r, a, b, Settled(), f);
    var a1, b1 := Seeking(a, f), Seeking(b, f);
    BothWrite(r, a1, b1, Settled(), f, f1, f2);
    assert a1.locks - {|f|} == map[HEADER := Exclusive];
    b2 :| r(Of([a1.(stage := Session(Idle), locks := a1.locks - {|f|}), b2, Settled()], f2, OPEN));
  }

  lemma NewcomersStart(ps: seq<Proc>, f: bytes)
    requires WellFormed(f) && forall i :: 0 <= i < |ps| ==> ps[i] == Newcomer()
    ensures Start(Of(ps, f, Gate(None, true, true)))
  {
  }

  lemma CollidedTable(f: bytes, f1: bytes, f2: bytes)
    requires f == OneRecord(CAROL)
    requires f1 == Splice(f, |f|, Gather(L.NewRecord(ALICE))) && f2 == Splice(f1, |f|, Gather(L.NewRecord(BOB)))
    ensures |f| == Pos(1) && WellFormed(f2) && Table(f2) == [L.NewRecord(CAROL), L.NewRecord(BOB)]
  {
    OneRecordTable(CAROL);
    WriteOnGrid(f, |f|, L.NewRecord(ALICE));
    WriteOnGrid(f1, |f|, L.NewRecord(BOB));
  }

  /** A run from an empty table in which three logins miss the mutex. One scans the table before
  another has created its record, a third one after. Their locks are granted, their writes
  collide, and one user's session goes on at the record of the second while it keeps the
  record of the third locked. */
  lemma UnguardedCreatesCollide() returns (s: System, t: System)
    ensures Start(s) && Reaches(s, t)
    ensures 0 in t.procs && t.procs[0].stage == Session(Idle) && WellFormed(t.file) && Count(t.file) == 2
    ensures Home(t.procs[0]) == Pos(1) && !L.Fits(Table(t.file)[1], t.procs[0].key)
    ensures L.Fits(Table(t.file)[0], CAROL) && forall q, kind :: q != 0 ==> !Grantable(t, q, Pos(0), kind)
  {
    var f := OneRecord(CAROL);
    var f1 := Splice(f, |f|, Gather(L.NewRecord(ALICE)));
    var f2 := Splice(f1, |f|, Gather(L.NewRecord(BOB)));
    CollidedTable(f, f1, f2);
    TestKeys();
    var b;
    s, b := CollisionReached(f, f1, f2);
    t := Of([Straying(|f|), b, Settled()], f2, OPEN);
    LockedOut(t);
  }

  lemma CollisionReached(f: bytes, f1: bytes, f2: bytes) returns (s: System, b: Proc)
    requires f == OneRecord(CAROL) && |f| == HEADER + RECLEN
    requires f1 == Splice(f, |f|, Gather(L.NewRecord(ALICE))) && f2 == Splice(f1, |f|, Gather(L.NewRecord(BOB)))
    ensures Start(s) && Reaches(s, Of([Straying(|f|), b, Settled()], f2, OPEN))
  {
    s := Of([Newcomer(), Newcomer(), Newcomer()], TALLY_MAGIC, Gate(None, true, true));
    NewcomersStart([Newcomer(), Newcomer(), Newcomer()], TALLY_MAGIC);
    var r := ReachesClosed(s);
    b := Collide(r, f, f1, f2);
  }
}
