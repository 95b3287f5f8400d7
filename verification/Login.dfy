/** Logins and sessions of many processes over one tally table, seen as a list of records.

A login (`quotatab_post_pass`) takes the QuotaLock mutex, finds its limit, scans the
tally table record by record, appends a record when none matches, and releases the
mutex. Afterwards the session rewrites its own record. Steps of all processes interleave
freely. `TallySessions` has the same on the bytes of the file and refines this.
*/
module Login {
  import opened Optional
  import opened TallyFile

  type Pid = nat

  /** What a login looks for. An ALL_QUOTA search ignores the name; the name is then the
  one in the limit record. */
  datatype Key = Key(quotaType: QuotaType, name: bytes)

  predicate ValidKey(k: Key) { |k.name| < NAMELEN && 0 !in k.name }

  function SearchName(k: Key): Option<bytes> { if k.quotaType == AllQuota then None else Some(k.name) }

  predicate Fits(t: Record, k: Key) { Matches(t, SearchName(k), k.quotaType) }

  /** `quotatab_create_tally`: the limit's name and type, all counters zero. */
  function NewRecord(k: Key): Record
    requires ValidKey(k)
  {
    RawTally(k.name + seq(NAMELEN - |k.name|, _ => 0), TypeCode(k.quotaType),
             seq(8, _ => 0), seq(8, _ => 0), seq(8, _ => 0), [0, 0, 0, 0], [0, 0, 0, 0], [0, 0, 0, 0])
  }

  /** Two records that a lookup cannot tell apart. */
  predicate SameKey(a: Record, b: Record) {
    a.quotaType == b.quotaType && (CString(a.name) == CString(b.name) || a.quotaType == TypeCode(AllQuota))
  }

  predicate KeysUnique(table: seq<Record>) {
    forall i, j :: 0 <= i < j < |table| ==> !SameKey(table[i], table[j])
  }

  datatype Pc =
    | Outside
    | AtMutex
    | AtLimits
    | Scanning(k: nat, key: Key)
    | Missing(key: Key)
    | Leaving(entry: Option<nat>, key: Key)
    | Unlimited
    | Session(cursor: nat, key: Key)
    | Gone

  /** `clean` says that so far every login got the mutex and every scan read without an
  error; the source carries on after either kind of failure. */
  datatype System = System(table: seq<Record>, mutex: Option<Pid>, procs: map<Pid, Pc>, clean: bool)

  datatype Action =
    | Enter
    | Acquire(ok: bool)
    | FindLimit(key: Option<Key>)
    | ReadRecord(io: bool)
    | Create(ok: bool)
    | Release
    | WriteCounters(record: Record)
    | Quit

  predicate Enabled(s: System, p: Pid, a: Action) {
    && p in s.procs
    && match s.procs[p]
       case Outside => a.Enter?
       case AtMutex => a.Acquire? && (a.ok ==> s.mutex == None)
       case AtLimits => a.FindLimit? && (a.key.Some? ==> ValidKey(a.key.value))
       case Scanning(k, key) => a.ReadRecord?
       case Missing(key) => a.Create? && ValidKey(key)
       case Leaving(_, _) => a.Release?
       case Unlimited => a.Release?
       case Session(c, key) =>
         a.Quit? || (a.WriteCounters? && c < |s.table| && a.record.name == s.table[c].name
                     && a.record.quotaType == s.table[c].quotaType)
       case Gone => false
  }

  function Next(s: System, p: Pid, a: Action): System
    requires Enabled(s, p, a)
  {
    match s.procs[p]
    case Outside => s.(procs := s.procs[p := AtMutex])
    case AtMutex =>
      s.(procs := s.procs[p := AtLimits], mutex := if a.ok then Some(p) else s.mutex, clean := s.clean && a.ok)
    case AtLimits =>
      s.(procs := s.procs[p := if a.key.Some? then Scanning(0, a.key.value) else Unlimited])
    case Scanning(k, key) =>
      if a.io && k < |s.table| then
        s.(procs := s.procs[p := if Fits(s.table[k], key) then Leaving(Some(k), key) else Scanning(k + 1, key)])
      else
        s.(procs := s.procs[p := Missing(key)], clean := s.clean && a.io)
    case Missing(key) =>
      if a.ok then
        s.(table := s.table + [NewRecord(key)], procs := s.procs[p := Leaving(Some(|s.table|), key)])
      else s.(procs := s.procs[p := Leaving(None, key)])
    case Leaving(entry, key) =>
      s.(procs := s.procs[p := if entry.Some? then Session(entry.value, key) else Gone],
         mutex := if s.mutex == Some(p) then None else s.mutex)
    case Unlimited =>
      s.(procs := s.procs[p := Gone], mutex := if s.mutex == Some(p) then None else s.mutex)
    case Session(c, key) =>
      if a.Quit? then s.(procs := s.procs[p := Gone])
      else s.(table := s.table[c := a.record])
  }

  ghost predicate Start(s: System) {
    && s.mutex == None && s.clean && KeysUnique(s.table)
    && forall p :: p in s.procs ==> s.procs[p] == Outside
  }

  predicate InLogin(pc: Pc) { pc.AtLimits? || pc.Scanning? || pc.Missing? || pc.Leaving? || pc.Unlimited? }

  /** What a login has established about the table, as long as nothing went wrong. */
  ghost predicate Established(s: System, pc: Pc) {
    match pc
    case Scanning(k, key) => ValidKey(key) && k <= |s.table| && forall i :: 0 <= i < k ==> !Fits(s.table[i], key)
    case Missing(key) => ValidKey(key) && forall i :: 0 <= i < |s.table| ==> !Fits(s.table[i], key)
    case _ => true
  }

  ghost predicate Inv(s: System) {
    s.clean ==>
      && KeysUnique(s.table)
      && (forall p :: p in s.procs && InLogin(s.procs[p]) ==> s.mutex == Some(p))
      && (forall p :: p in s.procs ==> Established(s, s.procs[p]))
  }

  /** Records are only ever appended or rewritten under the same name and type. */
  ghost predicate KeysPreserved(before: seq<Record>, after: seq<Record>) {
    && |before| <= |after|
    && forall i :: 0 <= i < |before| ==> after[i].name == before[i].name && after[i].quotaType == before[i].quotaType
  }

  lemma {:induction false} CStringOfPadded(name: bytes, pad: nat)
    requires 0 !in name && pad > 0
    ensures CString(name + seq(pad, _ => 0)) == name
  {
    var padded := name + seq(pad, _ => 0);
    if name != [] {
      assert padded[1..] == name[1..] + seq(pad, _ => 0);
      CStringOfPadded(name[1..], pad);
      assert [name[0]] + name[1..] == name;
    } else {
      assert padded[0] == 0;
    }
  }

  /** A lookup finds the record a login creates, and nothing it already found wanting. */
  lemma NewRecordFits(k: Key, t: Record)
    requires ValidKey(k)
    ensures Fits(NewRecord(k), k)
    ensures SameKey(t, NewRecord(k)) <==> Fits(t, k)
  {
    CStringOfPadded(k.name, NAMELEN - |k.name|);
    assert TypeCode(UserQuota)[0] == 20 && TypeCode(GroupQuota)[0] == 30 && TypeCode(ClassQuota)[0] == 40
           && TypeCode(AllQuota)[0] == 10;
  }

  lemma KeysPreservedStep(s: System, p: Pid, a: Action)
    requires Enabled(s, p, a)
    ensures KeysPreserved(s.table, Next(s, p, a).table)
  {
  }

  lemma UniqueStep(s: System, p: Pid, a: Action)
    requires Inv(s) && s.clean && Enabled(s, p, a)
    ensures KeysUnique(Next(s, p, a).table)
  {
    var s' := Next(s, p, a);
    KeysPreservedStep(s, p, a);
    if s.procs[p].Missing? && a.ok {
      var key := s.procs[p].key;
      assert Established(s, s.procs[p]);
      forall i | 0 <= i < |s.table|
        ensures !SameKey(s'.table[i], s'.table[|s.table|])
      {
        NewRecordFits(key, s.table[i]);
      }
    }
  }

  lemma EstablishedStep(s: System, p: Pid, a: Action, q: Pid)
    requires Inv(s) && Enabled(s, p, a) && q in s.procs && Next(s, p, a).clean
    ensures Established(Next(s, p, a), Next(s, p, a).procs[q])
  {
    KeysPreservedStep(s, p, a);
    assert Established(s, s.procs[q]);
    assert InLogin(s.procs[p]) ==> s.mutex == Some(p);
    assert InLogin(s.procs[q]) ==> s.mutex == Some(q);
  }

  lemma InvStep(s: System, p: Pid, a: Action)
    requires Inv(s) && Enabled(s, p, a)
    ensures Inv(Next(s, p, a))
  {
    var s' := Next(s, p, a);
    if s'.clean {
      UniqueStep(s, p, a);
      forall q | q in s'.procs
        ensures Established(s', s'.procs[q])
      {
        EstablishedStep(s, p, a, q);
      }
    }
  }

  predicate Runs(s: System, steps: seq<(Pid, Action)>)
    decreases steps
  {
    steps == [] || (Enabled(s, steps[0].0, steps[0].1) && Runs(Next(s, steps[0].0, steps[0].1), steps[1..]))
  }

  function After(s: System, steps: seq<(Pid, Action)>): System
    requires Runs(s, steps)
    decreases steps
  {
    if steps == [] then s else After(Next(s, steps[0].0, steps[0].1), steps[1..])
  }

  lemma {:induction false} InvAlongRun(s: System, steps: seq<(Pid, Action)>)
    requires Inv(s) && Runs(s, steps)
    ensures Inv(After(s, steps))
    decreases steps
  {
    if steps != [] {
      InvStep(s, steps[0].0, steps[0].1);
      InvAlongRun(Next(s, steps[0].0, steps[0].1), steps[1..]);
    }
  }

  /** With the mutex acquired by every login, no interleaving puts two records with the
  same key into the table. */
  lemma {:induction false} NoDuplicateTallies(s: System, steps: seq<(Pid, Action)>)
    requires Start(s) && Runs(s, steps)
    ensures After(s, steps).clean ==> KeysUnique(After(s, steps).table)
  {
    InvAlongRun(s, steps);
  }

  lemma {:induction false} CleanAlongRun(s: System, steps: seq<(Pid, Action)>)
    requires s.clean && Runs(s, steps)
    requires forall i :: 0 <= i < |steps| ==>
               (steps[i].1.Acquire? ==> steps[i].1.ok) && (steps[i].1.ReadRecord? ==> steps[i].1.io)
    ensures After(s, steps).clean
    decreases steps
  {
    if steps != [] {
      CleanAlongRun(Next(s, steps[0].0, steps[0].1), steps[1..]);
    }
  }

  /** The same, said of the steps: every login acquires the mutex and no scan fails. */
  lemma {:induction false} GuardedLoginsNeverDuplicate(s: System, steps: seq<(Pid, Action)>)
    requires Start(s) && Runs(s, steps)
    requires forall i :: 0 <= i < |steps| ==>
               (steps[i].1.Acquire? ==> steps[i].1.ok) && (steps[i].1.ReadRecord? ==> steps[i].1.io)
    ensures KeysUnique(After(s, steps).table)
  {
    CleanAlongRun(s, steps);
    NoDuplicateTallies(s, steps);
  }

  // ---------------------------------------------------------------------------
  // Without the mutex

  const ALICE := Key(UserQuota, [97])

  function Pair(a: Pc, b: Pc, table: seq<Record>): System { System(table, None, map[0 := a, 1 := b], false) }

  lemma OnlyOwnPc(s: System, p: Pid, a: Action)
    requires Enabled(s, p, a)
    ensures Next(s, p, a).procs == s.procs[p := Next(s, p, a).procs[p]]
    ensures Next(s, p, a).clean ==> s.clean
  {
  }

  /** One step of process 0, then the given rest. */
  lemma Step0(a: Pc, b: Pc, table: seq<Record>, act: Action, a': Pc, table': seq<Record>,
              rest: seq<(Pid, Action)>, end: System) returns (steps: seq<(Pid, Action)>)
    requires Enabled(Pair(a, b, table), 0, act)
    requires var s' := Next(Pair(a, b, table), 0, act);
             s'.procs[0] == a' && s'.table == table' && s'.mutex == None
    requires Runs(Pair(a', b, table'), rest) && After(Pair(a', b, table'), rest) == end
    ensures Runs(Pair(a, b, table), steps) && After(Pair(a, b, table), steps) == end
  {
    OnlyOwnPc(Pair(a, b, table), 0, act);
    assert Next(Pair(a, b, table), 0, act) == Pair(a', b, table');
    steps := [(0, act)] + rest;
    assert steps[1..] == rest;
  }

  lemma Step1(a: Pc, b: Pc, table: seq<Record>, act: Action, b': Pc, table': seq<Record>,
              rest: seq<(Pid, Action)>, end: System) returns (steps: seq<(Pid, Action)>)
    requires Enabled(Pair(a, b, table), 1, act)
    requires var s' := Next(Pair(a, b, table), 1, act);
             s'.procs[1] == b' && s'.table == table' && s'.mutex == None
    requires Runs(Pair(a, b', table'), rest) && After(Pair(a, b', table'), rest) == end
    ensures Runs(Pair(a, b, table), steps) && After(Pair(a, b, table), steps) == end
  {
    OnlyOwnPc(Pair(a, b, table), 1, act);
    assert Next(Pair(a, b, table), 1, act) == Pair(a, b', table');
    steps := [(1, act)] + rest;
    assert steps[1..] == rest;
  }

  /** A login that found no record is about to create one. */
  predicate CreatesNow(s: System, p: Pid, a: Action) { p in s.procs && s.procs[p].Missing? && a.Create? && a.ok }

  predicate NoneFits(table: seq<Record>, key: Key) { forall i :: 0 <= i < |table| ==> !Fits(table[i], key) }

  /** A creation, with or without the mutex, keeps the keys unique if and only if the table has
  no record for its key at that moment, whatever it was when the scan went over it. */
  lemma CreateKeepsKeysIff(s: System, p: Pid, a: Action)
    requires Enabled(s, p, a) && CreatesNow(s, p, a) && KeysUnique(s.table)
    ensures KeysUnique(Next(s, p, a).table) <==> NoneFits(s.table, s.procs[p].key)
  {
    var key, n := s.procs[p].key, |s.table|;
    var t := Next(s, p, a).table;
    forall i | 0 <= i < n
      ensures SameKey(t[i], t[n]) <==> Fits(s.table[i], key)
    {
      NewRecordFits(key, s.table[i]);
    }
  }

  lemma DuplicatesKept(t: seq<Record>, t': seq<Record>)
    requires KeysPreserved(t, t')
    ensures !KeysUnique(t) ==> !KeysUnique(t')
    ensures |t'| == |t| && KeysUnique(t) ==> KeysUnique(t')
  {
    if !KeysUnique(t) {
      var i, j :| 0 <= i < j < |t| && SameKey(t[i], t[j]);
      assert SameKey(t'[i], t'[j]);
    } else if |t'| == |t| {
      forall i, j | 0 <= i < j < |t'|
        ensures !SameKey(t'[i], t'[j])
      {
        assert !SameKey(t[i], t[j]);
      }
    }
  }

  /** Two records that a lookup cannot tell apart stay so. */
  lemma DuplicatesStay(s: System, p: Pid, a: Action)
    requires Enabled(s, p, a)
    ensures !KeysUnique(s.table) ==> !KeysUnique(Next(s, p, a).table)
    ensures !CreatesNow(s, p, a) && KeysUnique(s.table) ==> KeysUnique(Next(s, p, a).table)
  {
    KeysPreservedStep(s, p, a);
    DuplicatesKept(s.table, Next(s, p, a).table);
  }

  /** Every creation of the run met a table without a record for its key. */
  predicate CreatedOnlyMissing(s: System, steps: seq<(Pid, Action)>)
    requires Runs(s, steps)
    decreases steps
  {
    steps == [] ||
    (var p, a := steps[0].0, steps[0].1;
     && (CreatesNow(s, p, a) ==> NoneFits(s.table, s.procs[p].key))
     && CreatedOnlyMissing(Next(s, p, a), steps[1..]))
  }

  /** Whatever the logins did about the mutex, a run leaves the keys unique if and only if each
  creation in it was of a key that had no record yet. */
  lemma {:induction false} KeysUniqueIff(s: System, steps: seq<(Pid, Action)>)
    requires Runs(s, steps) && KeysUnique(s.table)
    ensures KeysUnique(After(s, steps).table) <==> CreatedOnlyMissing(s, steps)
    decreases steps
  {
    if steps != [] {
      var p, a := steps[0].0, steps[0].1;
      DuplicatesStay(s, p, a);
      if CreatesNow(s, p, a) {
        CreateKeepsKeysIff(s, p, a);
      }
      if KeysUnique(Next(s, p, a).table) {
        KeysUniqueIff(Next(s, p, a), steps[1..]);
      } else {
        DuplicatesStayAlongRun(Next(s, p, a), steps[1..]);
      }
    }
  }

  lemma {:induction false} DuplicatesStayAlongRun(s: System, steps: seq<(Pid, Action)>)
    requires Runs(s, steps) && !KeysUnique(s.table)
    ensures !KeysUnique(After(s, steps).table)
    decreases steps
  {
    if steps != [] {
      DuplicatesStay(s, steps[0].0, steps[0].1);
      DuplicatesStayAlongRun(Next(s, steps[0].0, steps[0].1), steps[1..]);
    }
  }

  /** Two logins of one user that both scan before either creates. */
  lemma UnguardedLoginsDuplicate()
    ensures exists s: System, steps: seq<(Pid, Action)> ::
              && s.mutex == None && KeysUnique(s.table) && (forall p :: p in s.procs ==> s.procs[p] == Outside)
              && Runs(s, steps) && !KeysUnique(After(s, steps).table)
  {
    var steps, end := CreateTwice();
    steps := LateScan(steps, end);
    steps := EarlyScan(steps, end);
  }

  lemma CreateTwice() returns (steps: seq<(Pid, Action)>, end: System)
    ensures var s := Pair(Missing(ALICE), Missing(ALICE), []);
            Runs(s, steps) && After(s, steps) == end && !KeysUnique(end.table)
  {
    var r := NewRecord(ALICE);
    var twice := [r] + [r];
    var first := Leaving(Some(0), ALICE);
    end := Pair(first, Leaving(Some(1), ALICE), twice);
    assert [] + [r] == [r] && SameKey(twice[0], twice[1]);
    steps := Step1(first, Missing(ALICE), [r], Create(true), Leaving(Some(1), ALICE), twice, [], end);
    steps := Step0(Missing(ALICE), Missing(ALICE), [], Create(true), first, [r], steps, end);
  }

  lemma LateScan(rest: seq<(Pid, Action)>, end: System) returns (steps: seq<(Pid, Action)>)
    requires var s := Pair(Missing(ALICE), Missing(ALICE), []); Runs(s, rest) && After(s, rest) == end
    ensures var s := Pair(Missing(ALICE), Outside, []); Runs(s, steps) && After(s, steps) == end
  {
    steps := Step1(Missing(ALICE), Scanning(0, ALICE), [], ReadRecord(true), Missing(ALICE), [], rest, end);
    steps := Step1(Missing(ALICE), AtLimits, [], FindLimit(Some(ALICE)), Scanning(0, ALICE), [], steps, end);
    steps := Step1(Missing(ALICE), AtMutex, [], Acquire(false), AtLimits, [], steps, end);
    steps := Step1(Missing(ALICE), Outside, [], Enter, AtMutex, [], steps, end);
  }

  lemma EarlyScan(rest: seq<(Pid, Action)>, end: System) returns (steps: seq<(Pid, Action)>)
    requires var s := Pair(Missing(ALICE), Outside, []); Runs(s, rest) && After(s, rest) == end
    ensures var s := Pair(Outside, Outside, []); Runs(s, steps) && After(s, steps) == end
  {
    steps := Step0(Scanning(0, ALICE), Outside, [], ReadRecord(true), Missing(ALICE), [], rest, end);
    steps := Step0(AtLimits, Outside, [], FindLimit(Some(ALICE)), Scanning(0, ALICE), [], steps, end);
    steps := Step0(AtMutex, Outside, [], Acquire(false), AtLimits, [], steps, end);
    steps := Step0(Outside, Outside, [], Enter, AtMutex, [], steps, end);
  }

  // ---------------------------------------------------------------------------
  // The control flow of the handler

  datatype LimitLevel = UserLevel | GroupLevel(group: nat) | ClassLevel | AllLevel

  /** Which limits exist for a login: the user's, those of its groups (the primary group
  first), the class's if there is a class, and the one for everyone. */
  datatype Limits = Limits(user: bool, groups: seq<bool>, class_: Option<bool>, all: bool)

  /** The level a login is held to: the first that has a limit, in the order user, groups,
  class, everyone. */
  ghost predicate IsFirstLevel(l: Limits, level: Option<LimitLevel>) {
    var noGroup := forall i :: 0 <= i < |l.groups| ==> !l.groups[i];
    match level
    case None => !l.user && noGroup && l.class_ != Some(true) && !l.all
    case Some(UserLevel) => l.user
    case Some(GroupLevel(g)) => !l.user && g < |l.groups| && l.groups[g] && forall i :: 0 <= i < g ==> !l.groups[i]
    case Some(ClassLevel) => !l.user && noGroup && l.class_ == Some(true)
    case Some(AllLevel) => !l.user && noGroup && l.class_ != Some(true) && l.all
  }

  /** `quotatab_post_pass`: every path through the handler releases the mutex exactly once
  for the one time it is taken, and the engine stays on exactly when a tally was found
  or created for the level in force. */
  method PostPass(tables: bool, l: Limits, tallyFound: bool, created: bool)
    returns (locks: nat, unlocks: nat, level: Option<LimitLevel>, useQuotas: bool)
    ensures locks == unlocks == if tables then 1 else 0
    ensures tables ==> IsFirstLevel(l, level)
    ensures useQuotas <==> tables && level.Some? && (tallyFound || created)
  {
    var haveLimit, haveEntry := false, false;
    locks, unlocks, level, useQuotas := 0, 0, None, true;
    if !tables {
      return 0, 0, None, false;
    }
    locks := locks + 1;
    if l.user {
      haveLimit, level := true, Some(UserLevel);
      haveEntry := tallyFound || created;
      unlocks := unlocks + 1;
    }
    if !haveLimit {
      var g := 0;
      while g < |l.groups|
        invariant 0 <= g <= |l.groups|
        invariant forall i :: 0 <= i < g ==> !l.groups[i]
        invariant !haveLimit && level == None && unlocks == 0
      {
        if l.groups[g] {
          haveLimit, level := true, Some(GroupLevel(g));
          break;
        }
        g := g + 1;
      }
      if haveLimit {
        haveEntry := tallyFound || created;
        unlocks := unlocks + 1;
      }
    }
    if !haveLimit && l.class_.Some? {
      if l.class_.value {
        haveLimit, level := true, Some(ClassLevel);
        haveEntry := tallyFound || created;
        unlocks := unlocks + 1;
      }
    }
    if !haveLimit {
      if l.all {
        haveLimit, level := true, Some(AllLevel);
        haveEntry := tallyFound || created;
        unlocks := unlocks + 1;
      }
    }
    if !haveEntry {
      if !haveLimit {
        unlocks := unlocks + 1;
      }
      useQuotas := false;
    }
  }
}
