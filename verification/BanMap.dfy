/** The ban list as a finite map from (type, server, name) to entries, for callers that look
before they add, as `ban_handle_event` and the ban control action do.
*/
module BanMap {
  import opened Optional
  import opened SlotSearch
  import opened BanTable

  datatype Key = Key(typ: nat, sid: nat, name: string)

  function KeyOf(e: Entry): Key { Key(e.typ, e.sid, e.name) }

  ghost predicate KeysUnique(s: seq<Entry>) {
    forall i, j :: 0 <= i < j < |s| && s[i].typ != 0 && s[j].typ != 0 ==> KeyOf(s[i]) != KeyOf(s[j])
  }

  ghost predicate NamesFit(s: seq<Entry>) { forall i :: 0 <= i < |s| ==> |s[i].name| < BAN_STRING_MAXSZ }

  /** Slot i holds the ban with key k. */
  ghost predicate At(s: seq<Entry>, i: int, k: Key) { 0 <= i < |s| && s[i].typ != 0 && KeyOf(s[i]) == k }

  /** The slots in use are exactly the bans of the map. */
  ghost predicate Represents(s: seq<Entry>, m: map<Key, Entry>) {
    && (forall i, k :: At(s, i, k) ==> k in m && m[k] == s[i])
    && (forall k :: k in m ==> exists i :: At(s, i, k))
  }

  /** The cached length of the list, which counts the slots in use, is the size of the map. */
  lemma {:induction false} LengthIsMapSize(s: seq<Entry>, m: map<Key, Entry>)
    requires Represents(s, m) && KeysUnique(s)
    ensures |m| == CountUsed(UsedSlots(s))
    decreases |s|
  {
    if |s| == 0 {
      assert forall i, k :: !At(s, i, k);
      assert m == map[];
    } else {
      var n := |s| - 1;
      var t := s[..n];
      assert UsedSlots(s)[..n] == UsedSlots(t);
      if s[n].typ == 0 {
        WithoutLast(s, m, m);
        LengthIsMapSize(t, m);
      } else {
        var k := KeyOf(s[n]);
        assert At(s, n, k);
        WithoutLast(s, m, m - {k});
        LengthIsMapSize(t, m - {k});
        OneMore(m, k);
      }
    }
  }

  lemma OneMore(m: map<Key, Entry>, k: Key)
    requires k in m
    ensures |m| == |m - {k}| + 1
  {
    assert m == (m - {k})[k := m[k]];
  }

  lemma WithoutLast(s: seq<Entry>, m: map<Key, Entry>, m': map<Key, Entry>)
    requires Represents(s, m) && KeysUnique(s) && |s| > 0
    requires m' == if s[|s| - 1].typ == 0 then m else m - {KeyOf(s[|s| - 1])}
    ensures Represents(s[..|s| - 1], m') && KeysUnique(s[..|s| - 1])
  {
    var t := s[..|s| - 1];
    forall i, k | At(t, i, k)
      ensures k in m' && m'[k] == t[i]
    {
      assert At(s, i, k);
    }
    forall k | k in m'
      ensures exists i :: At(t, i, k)
    {
      var i :| At(s, i, k);
      assert At(t, i, k);
    }
  }

  /** Looking up a name is two map lookups: for this server and for all servers. */
  lemma ExistsIsMapLookup(s: seq<Entry>, m: map<Key, Entry>, typ: nat, sid: nat, name: string)
    requires Represents(s, m) && typ > 0
    ensures (exists i :: 0 <= i < |s| && Hit(s[i], typ, sid, name))
            <==> Key(typ, sid, name) in m || Key(typ, 0, name) in m
  {
    if Key(typ, sid, name) in m {
      var i :| At(s, i, Key(typ, sid, name));
      assert Hit(s[i], typ, sid, name);
    }
    if Key(typ, 0, name) in m {
      var i :| At(s, i, Key(typ, 0, name));
      assert Hit(s[i], typ, sid, name);
    }
    if i :| 0 <= i < |s| && Hit(s[i], typ, sid, name) {
      assert At(s, i, KeyOf(s[i]));
    }
  }

  lemma AddIsMapUpdate(s: seq<Entry>, m: map<Key, Entry>, slot: nat, e: Entry)
    requires Represents(s, m) && KeysUnique(s) && slot < |s| && s[slot].typ == 0 && e.typ > 0
    requires KeyOf(e) !in m
    ensures KeysUnique(s[slot := e]) && Represents(s[slot := e], m[KeyOf(e) := e])
  {
    var t, m' := s[slot := e], m[KeyOf(e) := e];
    forall i | 0 <= i < |s| && s[i].typ != 0
      ensures KeyOf(s[i]) != KeyOf(e)
    {
      assert At(s, i, KeyOf(s[i]));
    }
    forall i, k | At(t, i, k)
      ensures k in m' && m'[k] == t[i]
    {
      if i != slot {
        assert At(s, i, k);
      }
    }
    forall k | k in m'
      ensures exists i :: At(t, i, k)
    {
      if k == KeyOf(e) {
        assert At(t, slot, k);
      } else {
        var i :| At(s, i, k);
        assert At(t, i, k);
      }
    }
  }

  predicate KeyTarget(k: Key, typ: nat, sid: nat, name: Option<string>) {
    k.typ == typ && (sid == 0 || k.sid == sid) && (name.None? || k.name == name.value)
  }

  ghost function Without(m: map<Key, Entry>, typ: nat, sid: nat, name: Option<string>): map<Key, Entry> {
    map k | k in m && !KeyTarget(k, typ, sid, name) :: m[k]
  }

  /** Clearing slots: the map loses exactly the keys whose slots went. */
  lemma ClearingRestrictsMap(s: seq<Entry>, m: map<Key, Entry>, t: seq<Entry>, m': map<Key, Entry>)
    requires Represents(s, m) && KeysUnique(s)
    requires |t| == |s| && forall i :: 0 <= i < |s| ==> t[i] == s[i] || t[i] == FREE
    requires forall k :: k in m' ==> k in m && m'[k] == m[k]
    requires forall i, k :: At(s, i, k) ==> (k in m' <==> t[i] == s[i])
    ensures KeysUnique(t) && Represents(t, m')
  {
    forall i, k | At(t, i, k)
      ensures k in m' && m'[k] == t[i]
    {
      assert At(s, i, k);
    }
    forall k | k in m'
      ensures exists i :: At(t, i, k)
    {
      var i :| At(s, i, k);
      assert At(t, i, k);
    }
  }

  lemma RemoveAllIsMapFilter(s: seq<Entry>, m: map<Key, Entry>, typ: nat, sid: nat, name: Option<string>)
    requires Represents(s, m) && KeysUnique(s) && typ > 0
    ensures KeysUnique(RemoveAll(s, typ, sid, name))
    ensures Represents(RemoveAll(s, typ, sid, name), Without(m, typ, sid, name))
  {
    ClearingRestrictsMap(s, m, RemoveAll(s, typ, sid, name), Without(m, typ, sid, name));
  }

  lemma RemoveFirstIsMapFilter(s: seq<Entry>, m: map<Key, Entry>, typ: nat, sid: nat, name: string, f: nat)
    requires Represents(s, m) && KeysUnique(s) && typ > 0 && sid != 0 && FirstTarget(s, typ, sid, Some(name), f)
    ensures KeysUnique(s[f := FREE])
    ensures Represents(s[f := FREE], Without(m, typ, sid, Some(name)))
  {
    forall i, k | At(s, i, k)
      ensures k in Without(m, typ, sid, Some(name)) <==> s[f := FREE][i] == s[i]
    {
      assert KeyTarget(k, typ, sid, Some(name)) ==> KeyOf(s[i]) == KeyOf(s[f]);
    }
    ClearingRestrictsMap(s, m, s[f := FREE], Without(m, typ, sid, Some(name)));
  }

  // ---------------------------------------------------------------------------
  // Runs

  datatype Op =
    | AddUnlessBanned(entry: Entry, slot: nat)
    | RemoveBans(typ: nat, sid: nat, name: Option<string>)
    | ExpireBans(now: int)

  /** What one operation may do to the slots; `slot` is the one the search comes up with. */
  ghost predicate SlotStep(s: seq<Entry>, op: Op, s': seq<Entry>) {
    match op
    case AddUnlessBanned(e, slot) =>
      && e.typ > 0
      && (if (exists i :: 0 <= i < |s| && Hit(s[i], e.typ, e.sid, e.name)) || AllUsed(UsedSlots(s)) then s' == s
          else slot < |s| && s[slot].typ == 0 && s' == s[slot := e])
    case RemoveBans(typ, sid, name) =>
      && typ > 0
      && (if sid == 0 || name.None? then s' == RemoveAll(s, typ, sid, name)
          else if exists i: nat :: FirstTarget(s, typ, sid, name, i)
          then exists i: nat :: FirstTarget(s, typ, sid, name, i) && s' == s[i := FREE]
          else s' == s)
    case ExpireBans(now) => s' == ExpireUpTo(s, now, |s|)
  }

  /** What it does to a map of limited size. A ban is dropped only if it is there already, for
  its server or for all, or the map is full. Expiry removes every expired ban, and beyond
  those only bans of the same type and name as an expired one. */
  ghost predicate MapStep(m: map<Key, Entry>, op: Op, m': map<Key, Entry>, size: nat) {
    match op
    case AddUnlessBanned(e, slot) =>
      m' == if KeyOf(e) in m || Key(e.typ, 0, e.name) in m || |m| == size then m else m[KeyOf(e) := e]
    case RemoveBans(typ, sid, name) => m' == Without(m, typ, sid, name)
    case ExpireBans(now) =>
      && (forall k :: k in m' ==> k in m && m'[k] == m[k] && !Over(m'[k], now))
      && (forall k :: k in m && k !in m' ==> exists q :: q in m && Over(m[q], now) && q.typ == k.typ && q.name == k.name)
  }

  /** The ban has a time set, and it has come. */
  predicate Over(e: Entry, now: int) { e.expires != 0 && e.expires <= now }

  ghost predicate Good(s: seq<Entry>) { KeysUnique(s) && FreeAreZero(s) && NoEmptyNames(s) }

  /** The name of a new ban is not empty and is stored whole. */
  ghost predicate GoodOp(op: Op) { op.AddUnlessBanned? ==> 0 < |op.entry.name| < BAN_STRING_MAXSZ }

  /** Clearing some slots leaves the bans of the others. */
  lemma RemainingMap(s: seq<Entry>, m: map<Key, Entry>, t: seq<Entry>) returns (m': map<Key, Entry>)
    requires Represents(s, m) && KeysUnique(s)
    requires |t| == |s| && forall i :: 0 <= i < |s| ==> t[i] == s[i] || t[i] == FREE
    ensures KeysUnique(t) && Represents(t, m')
    ensures forall k :: k in m' ==> k in m && m'[k] == m[k] && exists i :: At(s, i, k) && t[i] == s[i]
    ensures forall k :: k in m && k !in m' ==> exists i :: At(s, i, k) && t[i] != s[i]
  {
    m' := map k | k in m && (exists i :: At(s, i, k) && t[i] == s[i]) :: m[k];
    forall i, k | At(s, i, k)
      ensures k in m' <==> t[i] == s[i]
    {
      forall j | At(s, j, k)
        ensures j == i
      {
      }
    }
    ClearingRestrictsMap(s, m, t, m');
  }

  lemma {:induction false} ExpiryOnMap(s: seq<Entry>, m: map<Key, Entry>, now: int) returns (m': map<Key, Entry>)
    requires Good(s) && Represents(s, m)
    ensures KeysUnique(ExpireUpTo(s, now, |s|)) && Represents(ExpireUpTo(s, now, |s|), m')
    ensures MapStep(m, ExpireBans(now), m', |s|)
  {
    var t := ExpireUpTo(s, now, |s|);
    ClearsOnly(s, now);
    m' := RemainingMap(s, m, t);
    forall k | k in m && k !in m'
      ensures exists q :: q in m && Over(m[q], now) && q.typ == k.typ && q.name == k.name
    {
      var j :| At(s, j, k) && t[j] != s[j];
      var q := DoomingKey(s, m, now, j);
    }
    forall k | k in m'
      ensures !Over(m'[k], now)
    {
      var i :| At(s, i, k) && t[i] == s[i];
      KeptIsNotOver(s, m, now, i, k);
    }
  }

  lemma {:induction false} ClearsOnly(s: seq<Entry>, now: int)
    ensures var t := ExpireUpTo(s, now, |s|); |t| == |s| && forall i :: 0 <= i < |s| ==> t[i] == s[i] || t[i] == FREE
  {
    NothingExpiredRemains(s, now, |s|);
  }

  lemma {:induction false} KeptIsNotOver(s: seq<Entry>, m: map<Key, Entry>, now: int, i: int, k: Key)
    requires Represents(s, m) && At(s, i, k) && ExpireUpTo(s, now, |s|)[i] == s[i]
    ensures k in m && !Over(m[k], now)
  {
    NothingExpiredRemains(s, now, |s|);
  }

  lemma DoomingKey(s: seq<Entry>, m: map<Key, Entry>, now: int, j: nat) returns (q: Key)
    requires Good(s) && Represents(s, m) && j < |s| && ExpireUpTo(s, now, |s|)[j] != s[j]
    ensures q in m && Over(m[q], now) && q.typ == s[j].typ && q.name == s[j].name
  {
    var i := WhoDoomed(s, now, j);
    q := KeyOf(s[i]);
    assert At(s, i, q);
  }

  lemma WhoDoomed(s: seq<Entry>, now: int, j: nat) returns (i: nat)
    requires Good(s) && j < |s| && ExpireUpTo(s, now, |s|)[j] != s[j]
    ensures i < |s| && s[i].typ != 0 && Over(s[i], now) && s[i].typ == s[j].typ && s[i].name == s[j].name
  {
    GoneOnlyWithTime(s, now, j);
    i :| i < |s| && s[i].typ == s[j].typ && s[i].name == s[j].name && s[i].expires != 0 && s[i].expires <= now;
  }

  /** Each operation on the slots is the map operation of the same name. */
  lemma StepRefinesMap(s: seq<Entry>, m: map<Key, Entry>, op: Op, s': seq<Entry>) returns (m': map<Key, Entry>)
    requires Good(s) && Represents(s, m) && GoodOp(op) && SlotStep(s, op, s')
    ensures |s'| == |s| && Good(s') && Represents(s', m') && MapStep(m, op, m', |s|)
  {
    match op
    case AddUnlessBanned(e, slot) =>
      ExistsIsMapLookup(s, m, e.typ, e.sid, e.name);
      LengthIsMapSize(s, m);
      CountFullIff(UsedSlots(s));
      if KeyOf(e) in m || Key(e.typ, 0, e.name) in m || |m| == |s| {
        m' := m;
      } else {
        AddIsMapUpdate(s, m, slot, e);
        m' := m[KeyOf(e) := e];
      }
    case RemoveBans(typ, sid, name) =>
      m' := Without(m, typ, sid, name);
      if sid == 0 || name.None? {
        RemoveAllIsMapFilter(s, m, typ, sid, name);
      } else if i: nat :| FirstTarget(s, typ, sid, name, i) && s' == s[i := FREE] {
        RemoveFirstIsMapFilter(s, m, typ, sid, name.value, i);
      } else {
        NoTargetNoKey(s, m, typ, sid, name);
      }
    case ExpireBans(now) =>
      m' := ExpiryOnMap(s, m, now);
      NothingExpiredRemains(s, now, |s|);
  }

  lemma NoTargetNoKey(s: seq<Entry>, m: map<Key, Entry>, typ: nat, sid: nat, name: Option<string>)
    requires Represents(s, m) && typ > 0 && forall i: nat :: !FirstTarget(s, typ, sid, name, i)
    ensures Without(m, typ, sid, name) == m
  {
    forall k | k in m
      ensures !KeyTarget(k, typ, sid, name)
    {
      var i :| At(s, i, k);
      if Target(s[i], typ, sid, name) {
        var f := LeastTarget(s, typ, sid, name, i);
      }
    }
  }

  lemma {:induction false} LeastTarget(s: seq<Entry>, typ: nat, sid: nat, name: Option<string>, i: nat) returns (f: nat)
    requires i < |s| && Target(s[i], typ, sid, name)
    ensures FirstTarget(s, typ, sid, name, f)
  {
    if j :| 0 <= j < i && Target(s[j], typ, sid, name) {
      f := LeastTarget(s, typ, sid, name, j);
    } else {
      f := i;
    }
  }

  ghost predicate SlotRun(states: seq<seq<Entry>>, ops: seq<Op>) {
    && |states| == |ops| + 1
    && (forall i :: 0 <= i < |ops| ==> GoodOp(ops[i]) && SlotStep(states[i], ops[i], states[i + 1]))
  }

  ghost predicate MapRun(states: seq<seq<Entry>>, ops: seq<Op>, maps: seq<map<Key, Entry>>) {
    && |maps| <= |states| == |ops| + 1
    && (forall i :: 0 <= i < |maps| ==> Represents(states[i], maps[i]))
    && (forall i :: 0 <= i < |maps| - 1 ==> MapStep(maps[i], ops[i], maps[i + 1], |states[i]|))
  }

  /** The ban table refines a finite map, of the table's capacity, along every run of guarded
  additions, removals and expiries. */
  lemma {:induction false} TableRefinesMap(states: seq<seq<Entry>>, ops: seq<Op>, m: map<Key, Entry>, n: nat)
    returns (maps: seq<map<Key, Entry>>)
    requires SlotRun(states, ops) && Good(states[0]) && Represents(states[0], m) && n <= |ops|
    ensures |maps| == n + 1 && maps[0] == m && MapRun(states, ops, maps) && Good(states[n])
  {
    if n == 0 {
      maps := [m];
    } else {
      var past := TableRefinesMap(states, ops, m, n - 1);
      var m' := NextMap(states, ops, past);
      ExtendMapRun(states, ops, past, m');
      maps := past + [m'];
    }
  }

  /** At every point of such a run the cached length of the table is the size of the map. */
  lemma {:induction false} LengthFollowsMap(states: seq<seq<Entry>>, ops: seq<Op>, m: map<Key, Entry>, n: nat)
    returns (maps: seq<map<Key, Entry>>)
    requires SlotRun(states, ops) && Good(states[0]) && Represents(states[0], m) && n <= |ops|
    ensures |maps| == n + 1 && maps[0] == m && MapRun(states, ops, maps)
    ensures |maps[n]| == CountUsed(UsedSlots(states[n])) <= |states[n]|
  {
    maps := TableRefinesMap(states, ops, m, n);
    assert Represents(states[n], maps[n]);
    LengthIsMapSize(states[n], maps[n]);
    CountFullIff(UsedSlots(states[n]));
  }

  lemma NextMap(states: seq<seq<Entry>>, ops: seq<Op>, maps: seq<map<Key, Entry>>) returns (m': map<Key, Entry>)
    requires SlotRun(states, ops) && MapRun(states, ops, maps) && 0 < |maps| <= |ops| && Good(states[|maps| - 1])
    ensures Represents(states[|maps|], m') && Good(states[|maps|])
    ensures MapStep(maps[|maps| - 1], ops[|maps| - 1], m', |states[|maps| - 1]|)
  {
    var k := |maps| - 1;
    assert Represents(states[k], maps[k]) && GoodOp(ops[k]) && SlotStep(states[k], ops[k], states[k + 1]);
    m' := StepRefinesMap(states[k], maps[k], ops[k], states[k + 1]);
  }

  lemma ExtendMapRun(states: seq<seq<Entry>>, ops: seq<Op>, maps: seq<map<Key, Entry>>, m': map<Key, Entry>)
    requires MapRun(states, ops, maps) && 0 < |maps| <= |ops|
    requires Represents(states[|maps|], m') && MapStep(maps[|maps| - 1], ops[|maps| - 1], m', |states[|maps| - 1]|)
    ensures MapRun(states, ops, maps + [m'])
  {
    var more := maps + [m'];
    forall i | 0 <= i < |more| - 1
      ensures MapStep(more[i], ops[i], more[i + 1], |states[i]|)
    {
      if i < |maps| - 1 {
        assert MapStep(maps[i], ops[i], maps[i + 1], |states[i]|);
      }
    }
  }

  // ---------------------------------------------------------------------------
  // The life of a ban

  /** The operation leaves the ban in slot i alone: no removal aims at it, no expiry comes after
  its time, and none finds an expired namesake. */
  ghost predicate Spares(s: seq<Entry>, op: Op, i: nat)
    requires i < |s|
  {
    match op
    case AddUnlessBanned(_, _) => true
    case RemoveBans(typ, sid, name) => !KeyTarget(KeyOf(s[i]), typ, sid, name)
    case ExpireBans(now) => !Over(s[i], now) && NamesakesLast(s, i, now)
  }

  lemma SparedStep(s: seq<Entry>, op: Op, s': seq<Entry>, i: nat)
    requires Good(s) && GoodOp(op) && SlotStep(s, op, s') && i < |s| && s[i].typ != 0 && Spares(s, op, i)
    ensures |s'| == |s| && s'[i] == s[i]
  {
    if op.ExpireBans? && s'[i] != s[i] {
      GoneOnlyWithTime(s, op.now, i);
    }
  }

  /** Slots with unique keys are the bans of some map. */
  lemma SomeMap(s: seq<Entry>) returns (m: map<Key, Entry>)
    requires KeysUnique(s)
    ensures Represents(s, m)
  {
    m := map i | 0 <= i < |s| && s[i].typ != 0 :: KeyOf(s[i]) := s[i];
    forall i, k | At(s, i, k)
      ensures k in m && m[k] == s[i]
    {
      assert KeyOf(s[i]) in m;
    }
    forall k | k in m
      ensures exists i :: At(s, i, k)
    {
      var i :| 0 <= i < |s| && s[i].typ != 0 && KeyOf(s[i]) == k;
      assert At(s, i, k);
    }
  }

  lemma GoodStep(s: seq<Entry>, op: Op, s': seq<Entry>)
    requires Good(s) && GoodOp(op) && SlotStep(s, op, s')
    ensures |s'| == |s| && Good(s')
  {
    var m := SomeMap(s);
    var _ := StepRefinesMap(s, m, op, s');
  }

  /** No removal aims at the ban added at `at` for `lasts` seconds, no expiry comes once these
  are over, and none finds an expired namesake. */
  ghost predicate InItsTime(s: seq<Entry>, op: Op, i: nat, lasts: nat, at: nat)
    requires i < |s|
  {
    match op
    case AddUnlessBanned(_, _) => true
    case RemoveBans(typ, sid, name) => !KeyTarget(KeyOf(s[i]), typ, sid, name)
    case ExpireBans(now) => (lasts == 0 || now < at + lasts) && NamesakesLast(s, i, now)
  }

  /** A ban added at `at` for `lasts` seconds, in every run of additions, removals and expiries
  that leave its name alone: it stands in its slot after every expiry before `at + lasts`, or
  after every one if `lasts` is zero, and the first one at or after that time has it gone. */
  lemma {:induction false} BanLastsItsTime(states: seq<seq<Entry>>, ops: seq<Op>, i: nat, n: nat, ban: Entry,
                                           reason: string, lasts: nat, mesg: Option<string>, at: nat)
    requires SlotRun(states, ops) && Good(states[0]) && n <= |ops| && i < |states[0]|
    requires ban == NewEntry(ban.typ, ban.sid, ban.name, reason, lasts, mesg, at) && ban.typ > 0 && states[0][i] == ban
    requires forall j :: 0 <= j < n ==> i < |states[j]| && InItsTime(states[j], ops[j], i, lasts, at)
    ensures Good(states[n]) && i < |states[n]| && states[n][i] == ban
    ensures n < |ops| && ops[n].ExpireBans? && lasts > 0 && at + lasts <= ops[n].now ==> KeyGone(states[n + 1], KeyOf(ban))
  {
    if n > 0 {
      BanLastsItsTime(states, ops, i, n - 1, ban, reason, lasts, mesg, at);
      assert GoodOp(ops[n - 1]) && SlotStep(states[n - 1], ops[n - 1], states[n]);
      assert InItsTime(states[n - 1], ops[n - 1], i, lasts, at);
      SparedStep(states[n - 1], ops[n - 1], states[n], i);
      GoodStep(states[n - 1], ops[n - 1], states[n]);
    }
    if n < |ops| && ops[n].ExpireBans? && lasts > 0 && at + lasts <= ops[n].now {
      assert SlotStep(states[n], ops[n], states[n + 1]);
      BanDies(states[n], ops[n].now, i);
    }
  }

  ghost predicate KeyGone(s: seq<Entry>, k: Key) { forall j :: !At(s, j, k) }

  lemma {:induction false} BanDies(s: seq<Entry>, now: int, i: nat)
    requires KeysUnique(s) && i < |s| && s[i].typ != 0 && Over(s[i], now)
    ensures KeyGone(ExpireUpTo(s, now, |s|), KeyOf(s[i]))
  {
    GoneInTime(s, now, i);
    NothingExpiredRemains(s, now, |s|);
  }

  // ---------------------------------------------------------------------------
  // Long names, and a list filled from scratch

  /** A ban is found under the name it was added with exactly when the name was not cut. */
  lemma AddedBanIsFoundIff(s: seq<Entry>, slot: nat, typ: nat, sid: nat, name: string, reason: string, lasts: int,
                           mesg: Option<string>, now: int)
    requires slot < |s| && NamesFit(s) && typ > 0
    ensures var t := s[slot := NewEntry(typ, sid, name, reason, lasts, mesg, now)];
            && NamesFit(t)
            && ((exists i :: 0 <= i < |t| && Hit(t[i], typ, sid, name)) <==> |name| < BAN_STRING_MAXSZ)
  {
    var t := s[slot := NewEntry(typ, sid, name, reason, lasts, mesg, now)];
    if |name| < BAN_STRING_MAXSZ {
      assert Hit(t[slot], typ, sid, name);
    }
  }

  /** The slots and the cursor after n additions to an empty list. */
  function Filled(size: nat, n: nat): (seq<bool>, nat)
    requires n <= size
  {
    (seq(size, i requires 0 <= i < size => i < n), n)
  }

  /** One addition as `BanList.Add` makes it, seen at the slots and the cursor. */
  ghost predicate Added(s: (seq<Entry>, nat), e: Entry, t: (seq<Entry>, nat)) {
    && |s.0| > 0 && e.typ > 0
    && exists d: nat ::
         && FirstOpen(UsedSlots(s.0), s.1, d)
         && t == (s.0[Slot(|s.0|, s.1, d) := e], Slot(|s.0|, s.1, d) + 1)
  }

  lemma FillingStep(s: (seq<Entry>, nat), e: Entry, t: (seq<Entry>, nat), n: nat)
    requires n < |s.0| && (UsedSlots(s.0), s.1) == Filled(|s.0|, n) && Added(s, e, t)
    ensures |t.0| == |s.0| && (UsedSlots(t.0), t.1) == Filled(|s.0|, n + 1)
  {
    var size := |s.0|;
    var d: nat :| FirstOpen(UsedSlots(s.0), s.1, d) && t == (s.0[Slot(size, s.1, d) := e], Slot(size, s.1, d) + 1);
    var used := UsedSlots(s.0);
    assert Slot(size, n, 0) == n && used == Filled(size, n).0 && !used[n];
    assert d == 0;
    UsedAfterUpdate(s.0, n, e);
    assert used[n := true] == Filled(size, n + 1).0;
  }

  /** Additions to an empty list fill it from the front, whatever they add. */
  lemma {:induction false} AdditionsFillList(states: seq<(seq<Entry>, nat)>, es: seq<Entry>, size: nat, n: nat)
    requires |states| == |es| + 1 && n <= |es| && n <= size
    requires forall i :: 0 <= i < |es| ==> Added(states[i], es[i], states[i + 1])
    requires states[0] == (seq(size, _ => FREE), 0)
    ensures |states[n].0| == size && (UsedSlots(states[n].0), states[n].1) == Filled(size, n)
  {
    if n == 0 {
      assert UsedSlots(states[0].0) == Filled(size, 0).0;
    } else {
      AdditionsFillList(states, es, size, n - 1);
      FillingStep(states[n - 1], es[n - 1], states[n], n - 1);
    }
  }

  /** As many additions to an empty list as it has slots: the search of the next one never
  ends. */
  lemma {:induction false} FullListHangsNextAdd(states: seq<(seq<Entry>, nat)>, es: seq<Entry>, size: nat, probes: nat)
    requires |states| == |es| + 1 && |es| == size > 0
    requires forall i :: 0 <= i < |es| ==> Added(states[i], es[i], states[i + 1])
    requires states[0] == (seq(size, _ => FREE), 0)
    ensures |states[size].0| == size && Probed(UsedSlots(states[size].0), states[size].1, probes).Next?
  {
    AdditionsFillList(states, es, size, size);
    assert UsedSlots(states[size].0) == Filled(size, size).0 && states[size].1 == size;
    NeverEndsFromTheEnd(Filled(size, size).0, size, probes);
  }
}
