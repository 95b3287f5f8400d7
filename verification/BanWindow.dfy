/** Whole runs of the event handler: events of every source in any order, with one source's
key followed through them.
*/
module BanWindow {
  import opened Optional
  import opened SlotSearch
  import opened BanTable
  import opened BanEvents
  import opened BanOnEvent

  /** The times of key k's own events. */
  function Times(evs: seq<Occurrence>, k: Key): seq<int> {
    if |evs| == 0 then []
    else Times(evs[..|evs| - 1], k) + if evs[|evs| - 1].key == k then [evs[|evs| - 1].now] else []
  }

  /** The index of the event that opened the window the last event falls in: an event at or
  after the end of the running window opens a new one. */
  function Anchor(ts: seq<int>, window: int): (a: nat)
    requires |ts| > 0
    ensures a < |ts|
  {
    if |ts| == 1 then 0
    else
      var a := Anchor(ts[..|ts| - 1], window);
      if ts[a] + window <= ts[|ts| - 1] then |ts| - 1 else a
  }

  function Min(a: nat, b: nat): nat { if a < b then a else b }

  /** What a list that only ever remembered timestamps would say key k's entry is. */
  function Expected(ts: seq<int>, k: Key, rule: Rule, now: int): Option<Event> {
    if |ts| == 0 then None
    else
      var a := Anchor(ts, rule.window);
      if ts[a] + rule.window <= now then None
      else Some(NewEvent(k, rule, ts[a]).(countCurr := Min(rule.countMax, |ts| - a)))
  }

  ghost predicate Steady(evs: seq<Occurrence>, k: Key, rule: Rule) {
    && (forall i :: 0 <= i < |evs| ==> NoClash(evs[i], k))
    && (forall i :: 0 <= i < |evs| && evs[i].key == k ==> evs[i].rule == rule && evs[i].room)
    && (forall i, j :: 0 <= i < j < |evs| ==> evs[i].now <= evs[j].now)
  }

  /** A rule as the configuration admits them. */
  predicate Sane(rule: Rule) { rule.countMax > 0 && rule.window > 0 && rule.expires != 0 }

  ghost predicate RunOf(states: seq<seq<Event>>, evs: seq<Occurrence>) {
    && |states| == |evs| + 1
    && forall i :: 0 <= i < |evs| ==> Handled(states[i], states[i + 1], evs[i])
  }

  lemma {:induction false} TimesBounded(evs: seq<Occurrence>, k: Key, rule: Rule)
    requires Steady(evs, k, rule) && |evs| > 0
    ensures forall i :: 0 <= i < |Times(evs, k)| ==> Times(evs, k)[i] <= evs[|evs| - 1].now
  {
    if |evs| > 1 {
      TimesBounded(evs[..|evs| - 1], k, rule);
    }
  }

  /** One more event of some key, seen from k: expiry and counting against the timestamps. */
  lemma ExpectedStep(ts: seq<int>, k: Key, rule: Rule, was: int, ev: Occurrence)
    requires Sane(rule) && Short(k) && k.typ > 0 && was <= ev.now
    requires forall i :: 0 <= i < |ts| ==> ts[i] <= was
    requires ev.key == k ==> ev.rule == rule && ev.room
    ensures Followed(Expected(ts, k, rule, was), ev, k)
            == Expected(ts + if ev.key == k then [ev.now] else [], k, rule, ev.now)
  {
    if ev.key == k {
      var us := ts + [ev.now];
      assert us[..|us| - 1] == ts;
    } else {
      assert ts + [] == ts;
    }
  }

  /** In every run of the handler, whatever the other sources do in between, the entry for a
  key is what its own timestamps say: no count is lost, none outlives its window, and the
  threshold is never passed. */
  lemma {:induction false} CountFollowsWindow(states: seq<seq<Event>>, evs: seq<Occurrence>, k: Key, rule: Rule)
    requires RunOf(states, evs) && Steady(evs, k, rule) && Sane(rule) && Short(k) && k.typ > 0
    requires Holds(states[0], k, None)
    ensures Holds(states[|evs|], k, Expected(Times(evs, k), k, rule, if |evs| == 0 then 0 else evs[|evs| - 1].now))
  {
    var n := |evs|;
    if n > 0 {
      var past, ev := evs[..n - 1], evs[n - 1];
      CountFollowsWindow(states[..n], past, k, rule);
      var was := if n == 1 then ev.now else evs[n - 2].now;
      if n > 1 {
        TimesBounded(past, k, rule);
      }
      assert Handled(states[n - 1], states[n], ev) && NoClash(ev, k);
      OneMoreEvent(states[n - 1], states[n], Times(past, k), k, rule, was, ev);
    }
  }

  lemma {:induction false} OneMoreEvent(s: seq<Event>, t: seq<Event>, ts: seq<int>, k: Key, rule: Rule, was: int, ev: Occurrence)
    requires Sane(rule) && Short(k) && k.typ > 0 && was <= ev.now && (forall i :: 0 <= i < |ts| ==> ts[i] <= was)
    requires ev.key == k ==> ev.rule == rule && ev.room
    requires Holds(s, k, Expected(ts, k, rule, was)) && Handled(s, t, ev) && NoClash(ev, k)
    ensures Holds(t, k, Expected(ts + if ev.key == k then [ev.now] else [], k, rule, ev.now))
  {
    ExpectedStep(ts, k, rule, was, ev);
  }

  /** The threshold is met by the last event exactly when its window holds that many. */
  lemma {:induction false} ReachedIff(states: seq<seq<Event>>, evs: seq<Occurrence>, k: Key, rule: Rule, o: Option<Event>)
    requires RunOf(states, evs) && Steady(evs, k, rule) && Sane(rule) && Short(k) && k.typ > 0
    requires Holds(states[0], k, None) && |evs| > 0 && evs[|evs| - 1].key == k
    requires Holds(states[|evs| - 1], k, o)
    ensures Reached(Followed(o, evs[|evs| - 1], k))
            <==> |Times(evs, k)| - Anchor(Times(evs, k), rule.window) >= rule.countMax
  {
    var n := |evs|;
    CountFollowsWindow(states, evs, k, rule);
    var p := Followed(o, evs[n - 1], k);
    assert Handled(states[n - 1], states[n], evs[n - 1]);
    var q := Expected(Times(evs, k), k, rule, evs[n - 1].now);
    assert Holds(states[n], k, p) && Holds(states[n], k, q);
    HoldsIsFunctional(states[n], k, p, q);
    AnchorCoversLast(Times(evs, k), rule.window);
  }

  lemma HoldsIsFunctional(s: seq<Event>, k: Key, p: Option<Event>, q: Option<Event>)
    requires Holds(s, k, p) && Holds(s, k, q)
    ensures p == q
  {
    if q.Some? {
      var i :| 0 <= i < |s| && s[i] == q.value && KeyOf(s[i]) == k;
      HoldsOne(s, k, p, i);
    }
  }

  lemma {:induction false} AnchorCoversLast(ts: seq<int>, window: int)
    requires |ts| > 0 && window > 0
    ensures ts[Anchor(ts, window)] + window > ts[|ts| - 1]
  {
  }

  /** Counting restarts: an event of the key at or after the end of the running window leaves
  its entry at a count of one, in a window of its own. */
  lemma {:induction false} WindowRestarts(states: seq<seq<Event>>, evs: seq<Occurrence>, k: Key, rule: Rule)
    requires RunOf(states, evs) && Steady(evs, k, rule) && Sane(rule) && Short(k) && k.typ > 0
    requires Holds(states[0], k, None) && |evs| > 0 && evs[|evs| - 1].key == k
    requires var ts := Times(evs[..|evs| - 1], k);
             ts == [] || ts[Anchor(ts, rule.window)] + rule.window <= evs[|evs| - 1].now
    ensures Holds(states[|evs|], k, Some(NewEvent(k, rule, evs[|evs| - 1].now).(countCurr := 1)))
  {
    var now := evs[|evs| - 1].now;
    var past, ts := Times(evs[..|evs| - 1], k), Times(evs, k);
    assert ts == past + [now] && ts[..|ts| - 1] == past;
    CountFollowsWindow(states, evs, k, rule);
  }

  // ---------------------------------------------------------------------------
  // Runs of both tables

  datatype Tables = Tables(events: seq<Event>, bans: seq<Entry>)

  ghost predicate HandlerRun(states: seq<Tables>, calls: seq<Call>, ended: seq<bool>) {
    && |states| == |calls| + 1 && |ended| == |calls|
    && forall i :: 0 <= i < |calls| ==>
         HandlerStep(states[i].events, states[i].bans, states[i + 1].events, states[i + 1].bans, calls[i], ended[i])
  }

  function Occurrences(calls: seq<Call>): seq<Occurrence> {
    seq(|calls|, i requires 0 <= i < |calls| => calls[i].ev)
  }

  function EventLists(states: seq<Tables>): seq<seq<Event>> {
    seq(|states|, i requires 0 <= i < |states| => states[i].events)
  }

  /** How many of the key's events the window of the last one holds. */
  function InWindow(evs: seq<Occurrence>, k: Key, rule: Rule): nat {
    var ts := Times(evs, k);
    if |ts| == 0 then 0 else |ts| - Anchor(ts, rule.window)
  }

  /** A source with its own rule and kind of ban, not tracked and not banned to begin with, for
  which the ban list has a slot whenever it needs one, and which only its own events ban. */
  ghost predicate Watched(states: seq<Tables>, calls: seq<Call>, k: Key, banType: nat, rule: Rule) {
    && Short(k) && k.typ > 0 && banType > 0 && Sane(rule) && Steady(Occurrences(calls), k, rule) && |states| == |calls| + 1
    && Holds(states[0].events, k, None) && NoHit(states[0].bans, banType, k.sid, k.src)
    && (forall i :: 0 <= i < |calls| && calls[i].ev.key == k ==>
          calls[i].banType == banType && !AllUsed(UsedSlots(states[i].bans)))
    && (forall i :: 0 <= i < |calls| && calls[i].ev.key != k ==> !Hit(BanOf(calls[i]), banType, k.sid, k.src))
  }

  /** Event i of the key finds its window full. */
  ghost predicate FullAt(calls: seq<Call>, k: Key, rule: Rule, i: nat)
    requires i < |calls|
  {
    calls[i].ev.key == k && InWindow(Occurrences(calls)[..i + 1], k, rule) >= rule.countMax
  }

  lemma ReachedAt(states: seq<Tables>, calls: seq<Call>, ended: seq<bool>, k: Key, banType: nat, rule: Rule, i: nat)
    requires HandlerRun(states, calls, ended) && Watched(states, calls, k, banType, rule)
    requires i < |calls| && calls[i].ev.key == k
    ensures ended[i] <==> FullAt(calls, k, rule, i) && NoHit(states[i].bans, banType, k.sid, k.src)
  {
    var o := ThresholdAt(states, calls, ended, k, banType, rule, i);
    assert NoClash(Occurrences(calls)[i], k);
    assert HandlerStep(states[i].events, states[i].bans, states[i + 1].events, states[i + 1].bans, calls[i], ended[i]);
  }

  lemma PrefixIsRun(states: seq<Tables>, calls: seq<Call>, ended: seq<bool>, k: Key, rule: Rule, n: nat)
    requires HandlerRun(states, calls, ended) && Steady(Occurrences(calls), k, rule) && n <= |calls|
    ensures RunOf(EventLists(states)[..n + 1], Occurrences(calls)[..n]) && Steady(Occurrences(calls)[..n], k, rule)
  {
    var evs, lists := Occurrences(calls)[..n], EventLists(states)[..n + 1];
    forall i | 0 <= i < n
      ensures Handled(lists[i], lists[i + 1], evs[i])
    {
      assert HandlerStep(states[i].events, states[i].bans, states[i + 1].events, states[i + 1].bans, calls[i], ended[i]);
    }
  }

  lemma ThresholdAt(states: seq<Tables>, calls: seq<Call>, ended: seq<bool>, k: Key, banType: nat, rule: Rule, i: nat)
    returns (o: Option<Event>)
    requires HandlerRun(states, calls, ended) && Watched(states, calls, k, banType, rule)
    requires i < |calls| && calls[i].ev.key == k
    ensures Holds(states[i].events, k, o) && (Reached(Followed(o, calls[i].ev, k)) <==> FullAt(calls, k, rule, i))
  {
    var evs, lists := Occurrences(calls)[..i + 1], EventLists(states)[..i + 2];
    PrefixIsRun(states, calls, ended, k, rule, i + 1);
    o := EntryBefore(states, calls, ended, k, banType, rule, i);
    assert lists[0] == states[0].events && lists[i] == states[i].events && evs[i] == calls[i].ev;
    ReachedIff(lists, evs, k, rule, o);
    assert Times(evs, k) == Times(evs[..i], k) + [evs[i].now];
  }

  lemma EntryBefore(states: seq<Tables>, calls: seq<Call>, ended: seq<bool>, k: Key, banType: nat, rule: Rule, i: nat)
    returns (o: Option<Event>)
    requires HandlerRun(states, calls, ended) && Watched(states, calls, k, banType, rule) && i <= |calls|
    ensures Holds(states[i].events, k, o)
  {
    var evs, lists := Occurrences(calls)[..i], EventLists(states)[..i + 1];
    PrefixIsRun(states, calls, ended, k, rule, i);
    assert lists[0] == states[0].events && lists[i] == states[i].events;
    CountFollowsWindow(lists, evs, k, rule);
    o := Expected(Times(evs, k), k, rule, if i == 0 then 0 else evs[i - 1].now);
  }

  /** Expiry, and a ban for someone else, give no hit. */
  lemma BannedElsewhere(s: seq<Entry>, t: seq<Entry>, ban: Entry, now: int, typ: nat, sid: nat, name: string)
    requires Banned(s, t, ban, now) && typ > 0 && NoHit(s, typ, sid, name) && !Hit(ban, typ, sid, name)
    ensures NoHit(t, typ, sid, name)
  {
    NothingExpiredRemains(s, now, |s|);
  }

  lemma BannedHere(s: seq<Entry>, t: seq<Entry>, ban: Entry, now: int, typ: nat, sid: nat, name: string)
    requires Banned(s, t, ban, now) && !AllUsed(UsedSlots(s)) && Hit(ban, typ, sid, name)
    ensures !NoHit(t, typ, sid, name)
  {
    BanExpiryLeavesOpenSlots(s, now);
    var kept := ExpireUpTo(s, now, |s|);
    var slot: nat :| slot < |kept| && kept[slot].typ == 0 && t == kept[slot := ban];
    assert Hit(t[slot], typ, sid, name);
  }

  /** As long as no event of the key finds its window full, nothing bans the source. */
  lemma {:induction false} NotBannedBefore(states: seq<Tables>, calls: seq<Call>, ended: seq<bool>, k: Key, banType: nat,
                                           rule: Rule, n: nat)
    requires HandlerRun(states, calls, ended) && Watched(states, calls, k, banType, rule) && n <= |calls|
    requires forall i :: 0 <= i < n ==> !FullAt(calls, k, rule, i)
    ensures NoHit(states[n].bans, banType, k.sid, k.src)
  {
    if n > 0 {
      NotBannedBefore(states, calls, ended, k, banType, rule, n - 1);
      var c := calls[n - 1];
      assert HandlerStep(states[n - 1].events, states[n - 1].bans, states[n].events, states[n].bans, c, ended[n - 1]);
      if c.ev.key == k {
        ReachedAt(states, calls, ended, k, banType, rule, n - 1);
      } else if ended[n - 1] {
        BannedElsewhere(states[n - 1].bans, states[n].bans, BanOf(c), c.ev.now, banType, k.sid, k.src);
      }
    }
  }

  /** The first full event bans the source. */
  lemma BannedAtFull(states: seq<Tables>, calls: seq<Call>, ended: seq<bool>, k: Key, banType: nat, rule: Rule, m: nat)
    requires HandlerRun(states, calls, ended) && Watched(states, calls, k, banType, rule) && m < |calls|
    requires FullAt(calls, k, rule, m) && NoHit(states[m].bans, banType, k.sid, k.src)
    ensures ended[m] && !NoHit(states[m + 1].bans, banType, k.sid, k.src)
  {
    var c := calls[m];
    ReachedAt(states, calls, ended, k, banType, rule, m);
    assert HandlerStep(states[m].events, states[m].bans, states[m + 1].events, states[m + 1].bans, c, ended[m]);
    assert Hit(BanOf(c), banType, k.sid, k.src);
    BannedHere(states[m].bans, states[m + 1].bans, BanOf(c), c.ev.now, banType, k.sid, k.src);
  }

  /** What the ban is: for the source on its own server, of the kind asked for, from the event
  that filled the window and for as long as the rule says, or for ever if it says zero. */
  lemma BanIsAsTheRuleSays(states: seq<Tables>, calls: seq<Call>, ended: seq<bool>, k: Key, banType: nat, rule: Rule, m: nat)
    returns (slot: nat)
    requires HandlerRun(states, calls, ended) && Watched(states, calls, k, banType, rule) && m < |calls|
    requires FullAt(calls, k, rule, m) && NoHit(states[m].bans, banType, k.sid, k.src)
    ensures slot < |states[m + 1].bans|
    ensures var ban, now := states[m + 1].bans[slot], calls[m].ev.now;
            && ban.typ == banType && ban.sid == k.sid && ban.name == k.src
            && ban.expires == (if rule.expires == 0 then 0 else now + rule.expires)
            && Shows(ban.reason, calls[m].reason)
            && (if rule.mesg.Some? then Shows(ban.mesg, rule.mesg.value) else ban.mesg == "")
  {
    var c, bs := calls[m], states[m].bans;
    BannedAtFull(states, calls, ended, k, banType, rule, m);
    assert HandlerStep(states[m].events, bs, states[m + 1].events, states[m + 1].bans, c, ended[m]);
    BanExpiryLeavesOpenSlots(bs, c.ev.now);
    var kept := ExpireUpTo(bs, c.ev.now, |bs|);
    slot :| slot < |kept| && kept[slot].typ == 0 && states[m + 1].bans == kept[slot := BanOf(c)];
    assert Occurrences(calls)[m] == c.ev && c.ev.rule == rule;
    NewEntryShows(banType, k.sid, k.src, c.reason, rule.expires, rule.mesg, c.ev.now);
  }

  lemma {:induction false} LastOwn(evs: seq<Occurrence>, k: Key, n: nat) returns (j: nat)
    requires n <= |evs| && Times(evs[..n], k) != []
    ensures j < n && evs[j].key == k && Times(evs[..n], k) == Times(evs[..j + 1], k)
  {
    assert evs[..n][..n - 1] == evs[..n - 1];
    if evs[n - 1].key == k {
      j := n - 1;
    } else {
      j := LastOwn(evs, k, n - 1);
    }
  }

  /** The first event to find its window full is exactly the countMax-th in it. */
  lemma {:induction false} FirstFullIsNth(calls: seq<Call>, k: Key, rule: Rule, m: nat)
    requires Sane(rule) && m < |calls| && FullAt(calls, k, rule, m)
    requires forall i :: 0 <= i < m ==> !FullAt(calls, k, rule, i)
    ensures InWindow(Occurrences(calls)[..m + 1], k, rule) == rule.countMax
  {
    var evs := Occurrences(calls);
    var ts, before := Times(evs[..m + 1], k), Times(evs[..m], k);
    assert evs[..m + 1][..m] == evs[..m];
    assert ts == before + [evs[m].now] && ts[..|ts| - 1] == before;
    if before != [] {
      var j := LastOwn(evs, k, m);
      assert !FullAt(calls, k, rule, j);
    }
  }

  /** A source is banned by its m-th call, and not before, if and only if that call is the
  countMax-th event of its window and no earlier event of the source filled one. */
  lemma {:induction false} BannedOnNthEventIff(states: seq<Tables>, calls: seq<Call>, ended: seq<bool>, k: Key, banType: nat,
                                               rule: Rule, m: nat)
    requires HandlerRun(states, calls, ended) && Watched(states, calls, k, banType, rule)
    requires m < |calls| && calls[m].ev.key == k
    ensures (forall j :: 0 <= j <= m ==> NoHit(states[j].bans, banType, k.sid, k.src))
            && !NoHit(states[m + 1].bans, banType, k.sid, k.src)
            <==> (forall i :: 0 <= i < m ==> !FullAt(calls, k, rule, i))
                 && InWindow(Occurrences(calls)[..m + 1], k, rule) == rule.countMax
  {
    if forall i :: 0 <= i < m ==> !FullAt(calls, k, rule, i) {
      forall j | 0 <= j <= m
        ensures NoHit(states[j].bans, banType, k.sid, k.src)
      {
        NotBannedBefore(states, calls, ended, k, banType, rule, j);
      }
      ReachedAt(states, calls, ended, k, banType, rule, m);
      assert HandlerStep(states[m].events, states[m].bans, states[m + 1].events, states[m + 1].bans, calls[m], ended[m]);
      if FullAt(calls, k, rule, m) {
        BannedAtFull(states, calls, ended, k, banType, rule, m);
        FirstFullIsNth(calls, k, rule, m);
      }
    } else {
      var i :| 0 <= i < m && FullAt(calls, k, rule, i);
      BannedEarlier(states, calls, ended, k, banType, rule, i, m);
    }
  }

  lemma BannedEarlier(states: seq<Tables>, calls: seq<Call>, ended: seq<bool>, k: Key, banType: nat, rule: Rule, i: nat, m: nat)
    requires HandlerRun(states, calls, ended) && Watched(states, calls, k, banType, rule)
    requires i < m < |calls| && FullAt(calls, k, rule, i)
    ensures !(NoHit(states[i].bans, banType, k.sid, k.src) && NoHit(states[i + 1].bans, banType, k.sid, k.src))
  {
    if NoHit(states[i].bans, banType, k.sid, k.src) {
      BannedAtFull(states, calls, ended, k, banType, rule, i);
    }
  }

  /** A rule with a threshold of zero counts nothing: in every run a source under such a rule
  is never tracked and never banned by its events, if it was not tracked to begin with. */
  lemma {:induction false} ZeroThresholdNeverCounts(states: seq<Tables>, calls: seq<Call>, ended: seq<bool>, k: Key, n: nat)
    requires HandlerRun(states, calls, ended) && n <= |calls| && k.typ > 0 && Holds(states[0].events, k, None)
    requires forall i :: 0 <= i < |calls| ==> NoClash(calls[i].ev, k)
    requires forall i :: 0 <= i < |calls| && calls[i].ev.key == k ==> calls[i].ev.rule.countMax == 0
    ensures Holds(states[n].events, k, None)
    ensures n < |calls| && calls[n].ev.key == k ==> !ended[n] && states[n + 1].bans == states[n].bans
  {
    if n > 0 {
      ZeroThresholdNeverCounts(states, calls, ended, k, n - 1);
      assert HandlerStep(states[n - 1].events, states[n - 1].bans, states[n].events, states[n].bans, calls[n - 1], ended[n - 1]);
    }
    if n < |calls| {
      assert HandlerStep(states[n].events, states[n].bans, states[n + 1].events, states[n + 1].bans, calls[n], ended[n]);
    }
  }

  // ---------------------------------------------------------------------------
  // Sources that are not stored whole

  /** A run of calls, with what each promises for a source of any length. */
  ghost predicate CallRun(states: seq<Tables>, calls: seq<Call>, ended: seq<bool>) {
    && HandlerRun(states, calls, ended)
    && (forall i :: 0 <= i < |states| ==> Sound(states[i].events))
    && (forall i :: 0 <= i < |calls| && !Short(calls[i].ev.key) ==>
          LongStep(states[i].events, states[i].bans, states[i + 1].events, states[i + 1].bans, calls[i].ev, ended[i]))
  }

  /** In every run a source of 128 characters or more is never found and never banned by its
  events, and each of them takes one more slot, with a count of zero, while one is free. */
  lemma LongSourceNeverCounted(states: seq<Tables>, calls: seq<Call>, ended: seq<bool>, k: Key, i: nat)
    requires CallRun(states, calls, ended) && !Short(k) && i < |calls|
    ensures Holds(states[i].events, k, None) && Holds(states[i + 1].events, k, None)
    ensures calls[i].ev.key == k ==> !ended[i] && states[i + 1].bans == states[i].bans
    ensures calls[i].ev.key == k && calls[i].ev.rule.countMax > 0 && calls[i].ev.room ==>
              exists kept: seq<Event>, slot: nat ::
                && Shed(states[i].events, kept, calls[i].ev.now, |states[i].events|)
                && slot < |kept| && kept[slot].typ == 0 && states[i + 1].events[slot].countCurr == 0
                && states[i + 1].events == kept[slot := states[i + 1].events[slot]]
                && (k.typ > 0 ==> CountUsed(UsedEvents(states[i + 1].events)) == CountUsed(UsedEvents(kept)) + 1)
  {
    LongKeyNotFound(states[i].events, k);
    LongKeyNotFound(states[i + 1].events, k);
    var ev := calls[i].ev;
    if ev.key == k && ev.rule.countMax > 0 && ev.room {
      var kept: seq<Event> :| Shed(states[i].events, kept, ev.now, |states[i].events|) && TakesSlot(kept, states[i + 1].events, ev);
      var slot: nat :| slot < |kept| && kept[slot].typ == 0 && states[i + 1].events == kept[slot := NewEvent(k, ev.rule, ev.now)];
      UsedEventsAfterUpdate(kept, slot, NewEvent(k, ev.rule, ev.now));
    }
  }

  // ---------------------------------------------------------------------------
  // Event keys stay unique

  datatype EventOp = HandleOp(ev: Occurrence) | RemoveTypeOp(typ: nat, sid: nat) | ExpireOp(now: int)

  ghost predicate EventStep(s: seq<Event>, op: EventOp, t: seq<Event>) {
    match op
    case HandleOp(ev) => Handled(s, t, ev)
    case RemoveTypeOp(typ, sid) => TypeRemoved(s, t, typ, sid)
    case ExpireOp(now) => Shed(s, t, now, |s|)
  }

  /** A run of handled events, removals and expiries by the timer, with sources that are stored
  whole. */
  ghost predicate EventRun(states: seq<seq<Event>>, ops: seq<EventOp>) {
    && |states| == |ops| + 1
    && forall i :: 0 <= i < |ops| ==>
         EventStep(states[i], ops[i], states[i + 1]) && (ops[i].HandleOp? ==> Short(ops[i].ev.key))
  }

  /** In every such run no two slots of the event list have the same key. */
  lemma {:induction false} EventKeysStayUnique(states: seq<seq<Event>>, ops: seq<EventOp>, n: nat)
    requires EventRun(states, ops) && n <= |ops| && UniqueKeys(states[0])
    ensures UniqueKeys(states[n])
  {
    if n > 0 {
      EventKeysStayUnique(states, ops, n - 1);
      UniqueAt(states, ops, n - 1);
    }
  }

  lemma UniqueAt(states: seq<seq<Event>>, ops: seq<EventOp>, i: nat)
    requires EventRun(states, ops) && i < |ops| && UniqueKeys(states[i])
    ensures UniqueKeys(states[i + 1])
  {
    var s, op, t := states[i], ops[i], states[i + 1];
    assert EventStep(s, op, t) && (op.HandleOp? ==> Short(op.ev.key));
    UniqueStep(s, op, t);
  }

  lemma UniqueStep(s: seq<Event>, op: EventOp, t: seq<Event>)
    requires UniqueKeys(s) && EventStep(s, op, t) && (op.HandleOp? ==> Short(op.ev.key))
    ensures UniqueKeys(t)
  {
    match op
    case HandleOp(ev) => HandledKeepsUnique(s, t, ev);
    case RemoveTypeOp(typ, sid) => ClearingKeepsUnique(s, t);
    case ExpireOp(now) => ClearingKeepsUnique(s, t);
  }
}
