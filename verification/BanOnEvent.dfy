/** `ban_handle_event`: count an event, and ban its source when the threshold is reached.
The handler runs under the exclusive lock on the shared tables, so calls do not overlap.
*/
module BanOnEvent {
  import opened Optional
  import opened SlotSearch
  import opened BanTable
  import opened BanEvents

  function Aged(o: Option<Event>, now: int): Option<Event> {
    if o.Some? && Stale(o.value, now) then None else o
  }

  function Bumped(e: Event): Event { if e.countCurr < e.countMax then e.(countCurr := e.countCurr + 1) else e }

  /** An event as the handler meets it; `room` tells whether a free slot was left for it. */
  datatype Occurrence = Occurrence(key: Key, rule: Rule, now: int, room: bool)

  /** What the handler makes of its own key's entry, once expiry has been over it. */
  function Counted(o: Option<Event>, ev: Occurrence): Option<Event> {
    match o
    case Some(e) => Some(Bumped(e))
    case None =>
      if ev.rule.countMax > 0 && ev.room then Some(Bumped(NewEvent(ev.key, ev.rule, ev.now))) else None
  }

  predicate Reached(o: Option<Event>) { o.Some? && o.value.countCurr >= o.value.countMax }

  /** The source was stored whole. */
  predicate Short(k: Key) { |k.src| < BAN_STRING_MAXSZ }

  /** The event can touch key k's entry only by having key k. */
  predicate NoClash(ev: Occurrence, k: Key) { Short(ev.key) || ev.key.(src := Copied(ev.key.src)) != k }

  function Followed(o: Option<Event>, ev: Occurrence, k: Key): Option<Event> {
    if ev.key == k && Short(k) then Counted(Aged(o, ev.now), ev) else Aged(o, ev.now)
  }

  /** One call of the handler, seen at every key at once. */
  ghost predicate Handled(s: seq<Event>, t: seq<Event>, ev: Occurrence) {
    forall k, o :: Holds(s, k, o) && k.typ > 0 && NoClash(ev, k) ==> Holds(t, k, Followed(o, ev, k))
  }

  /** Keys that are unique stay so, if the event's source is stored whole. */
  lemma HandledKeepsUnique(s: seq<Event>, t: seq<Event>, ev: Occurrence)
    requires UniqueKeys(s) && Handled(s, t, ev) && Short(ev.key)
    ensures UniqueKeys(t)
  {
    forall i, j | 0 <= i < j < |t| && t[i].typ != 0
      ensures KeyOf(t[i]) != KeyOf(t[j])
    {
      var k := KeyOf(t[i]);
      var o := UniqueHolds(s, k);
      assert Holds(t, k, Followed(o, ev, k));
    }
  }

  /** A call of the handler: the event, what kind of ban it may lead to, and the reason noted. */
  datatype Call = Call(ev: Occurrence, banType: nat, reason: string)

  function BanOf(c: Call): Entry {
    NewEntry(c.banType, c.ev.key.sid, c.ev.key.src, c.reason, c.ev.rule.expires, c.ev.rule.mesg, c.ev.now)
  }

  ghost predicate NoHit(s: seq<Entry>, typ: nat, sid: nat, name: string) {
    forall i :: 0 <= i < |s| ==> !Hit(s[i], typ, sid, name)
  }

  /** One call of the handler on both tables. Every key's entry moves as `Followed` says. The
  source is banned, and the session ended, exactly when its own count has reached the
  threshold and no ban entry, expired or not, serves it yet. */
  ghost predicate HandlerStep(es: seq<Event>, bs: seq<Entry>, es': seq<Event>, bs': seq<Entry>, c: Call, ended: bool) {
    && Handled(es, es', c.ev)
    && (forall o :: Holds(es, c.ev.key, o) && NoClash(c.ev, c.ev.key) ==>
          (ended <==> Reached(Followed(o, c.ev, c.ev.key)) && NoHit(bs, c.banType, c.ev.key.sid, c.ev.key.src)))
    && (!ended ==> bs' == bs)
    && (ended ==> Banned(bs, bs', BanOf(c), c.ev.now))
  }

  lemma HoldsOne(s: seq<Event>, k: Key, o: Option<Event>, i: nat)
    requires Holds(s, k, o) && i < |s| && KeyOf(s[i]) == k
    ensures o == Some(s[i])
    ensures forall j :: 0 <= j < |s| && KeyOf(s[j]) == k ==> j == i
  {
  }

  lemma AgedByExpiry(s: seq<Event>, t: seq<Event>, now: int, k: Key, o: Option<Event>)
    requires Shed(s, t, now, |s|) && Holds(s, k, o) && k.typ > 0
    ensures Holds(t, k, Aged(o, now))
  {
    assert forall i :: 0 <= i < |s| && KeyOf(t[i]) == k ==> KeyOf(s[i]) == k;
    if o.Some? {
      var i :| 0 <= i < |s| && s[i] == o.value;
      HoldsOne(s, k, o, i);
      assert Alone(s, i);
      if Stale(s[i], now) {
        assert t[i] == FREE_EVENT;
      } else {
        assert t[i] == s[i];
      }
    }
  }

  lemma AddedEntry(s: seq<Event>, slot: nat, e: Event, k: Key, o: Option<Event>)
    requires Holds(s, k, o) && slot < |s| && s[slot].typ == 0 && k.typ > 0
    requires KeyOf(e) == k ==> o == None
    ensures Holds(s[slot := e], k, if KeyOf(e) == k then Some(e) else o)
  {
    var t := s[slot := e];
    assert forall i :: 0 <= i < |s| && i != slot ==> t[i] == s[i];
    if KeyOf(e) == k {
      assert t[slot] == e;
    } else if o.Some? {
      var i :| 0 <= i < |s| && s[i] == o.value && KeyOf(s[i]) == k;
      assert t[i] == s[i];
    }
  }

  lemma ChangedEntry(s: seq<Event>, at: nat, e: Event, k: Key, o: Option<Event>)
    requires Holds(s, k, o) && at < |s| && KeyOf(e) == KeyOf(s[at])
    ensures Holds(s[at := e], k, if KeyOf(e) == k then Some(e) else o)
  {
    var t := s[at := e];
    assert forall i :: 0 <= i < |s| ==> KeyOf(t[i]) == KeyOf(s[i]);
    if KeyOf(e) == k {
      HoldsOne(s, k, o, at);
      assert t[at] == e;
    } else if o.Some? {
      var i :| 0 <= i < |s| && s[i] == o.value && KeyOf(s[i]) == k;
      assert t[i] == s[i];
    }
  }

  /** The key's entry is made if it is missing; nothing else changes. */
  function Opened(o: Option<Event>, ev: Occurrence, k: Key): Option<Event> {
    if ev.key == k && Short(k) && o == None && ev.rule.countMax > 0 && ev.room
    then Some(NewEvent(ev.key, ev.rule, ev.now)) else o
  }

  ghost predicate OpenedIn(s: seq<Event>, t: seq<Event>, ev: Occurrence) {
    forall k, o :: Holds(s, k, o) && k.typ > 0 && NoClash(ev, k) ==> Holds(t, k, Opened(o, ev, k))
  }

  lemma OpenedByAdd(s: seq<Event>, slot: nat, ev: Occurrence)
    requires slot < |s| && s[slot].typ == 0 && ev.rule.countMax > 0 && ev.room
    requires forall i :: 0 <= i < |s| ==> KeyOf(s[i]) != ev.key
    ensures OpenedIn(s, s[slot := NewEvent(ev.key, ev.rule, ev.now)], ev)
  {
    var e := NewEvent(ev.key, ev.rule, ev.now);
    assert KeyOf(e) == ev.key.(src := Copied(ev.key.src));
    forall k, o | Holds(s, k, o) && k.typ > 0 && NoClash(ev, k)
      ensures Holds(s[slot := e], k, Opened(o, ev, k))
    {
      AddedEntry(s, slot, e, k, o);
    }
  }

  /** A fresh entry, if the rule counts anything and there is a slot for it. */
  ghost predicate TakesSlot(s: seq<Event>, t: seq<Event>, ev: Occurrence) {
    if ev.rule.countMax > 0 && ev.room then
      exists slot: nat :: slot < |s| && s[slot].typ == 0 && t == s[slot := NewEvent(ev.key, ev.rule, ev.now)]
    else t == s
  }

  /** One call for a source too long to be stored whole: expired entries go, a further slot is
  taken with a count of zero, and nobody is banned. */
  ghost predicate LongStep(es: seq<Event>, bs: seq<Entry>, es': seq<Event>, bs': seq<Entry>, ev: Occurrence, ended: bool) {
    && !ended && bs' == bs
    && exists kept :: Shed(es, kept, ev.now, |es|) && TakesSlot(kept, es', ev)
  }

  /** What is stored is short, so a longer source is never found. */
  lemma LongKeyNotFound(s: seq<Event>, k: Key)
    requires Sound(s) && !Short(k)
    ensures Holds(s, k, None)
  {
  }

  /** Expiry, then opening, then counting at the entry found: one call of the handler. */
  lemma HandledInThreeSteps(s: seq<Event>, t: seq<Event>, u: seq<Event>, v: seq<Event>, at: Option<nat>, ev: Occurrence)
    requires Shed(s, t, ev.now, |s|) && OpenedIn(t, u, ev) && Sound(u)
    requires at.None? ==> v == u && forall i :: 0 <= i < |u| ==> KeyOf(u[i]) != ev.key
    requires at.Some? ==> && at.value < |u| && KeyOf(u[at.value]) == ev.key
                          && v == u[at.value := Bumped(u[at.value])]
    ensures Handled(s, v, ev)
  {
    forall k, o | Holds(s, k, o) && k.typ > 0 && NoClash(ev, k)
      ensures Holds(v, k, Followed(o, ev, k))
    {
      AgedByExpiry(s, t, ev.now, k, o);
      var p := Opened(Aged(o, ev.now), ev, k);
      assert Holds(u, k, p);
      if at.Some? {
        ChangedEntry(u, at.value, Bumped(u[at.value]), k, p);
        if k == ev.key {
          HoldsOne(u, k, p, at.value);
        }
      }
    }
  }

  lemma PresentIsOpened(s: seq<Event>, at: nat, ev: Occurrence)
    requires at < |s| && KeyOf(s[at]) == ev.key
    ensures OpenedIn(s, s, ev)
  {
    forall k, o | Holds(s, k, o) && k.typ > 0 && NoClash(ev, k)
      ensures Holds(s, k, Opened(o, ev, k))
    {
      if k == ev.key {
        HoldsOne(s, k, o, at);
      }
    }
  }

  lemma ExpiryLeavesOpenSlots(s: seq<Event>, t: seq<Event>, now: int)
    requires Shed(s, t, now, |s|) && !AllUsed(UsedEvents(s))
    ensures !AllUsed(UsedEvents(t))
  {
    var i :| 0 <= i < |s| && !UsedEvents(s)[i];
    assert !UsedEvents(t)[i];
  }

  /** The ban list after an autoban: expired bans are cleared, and the new one stands in a
  slot that was open then, if there was one. */
  ghost predicate Banned(s: seq<Entry>, t: seq<Entry>, ban: Entry, now: int) {
    var kept := ExpireUpTo(s, now, |s|);
    if AllUsed(UsedSlots(kept)) then t == kept
    else exists slot: nat :: slot < |kept| && kept[slot].typ == 0 && t == kept[slot := ban]
  }

  lemma {:induction false} BanExpiryLeavesOpenSlots(s: seq<Entry>, now: int)
    requires !AllUsed(UsedSlots(s))
    ensures !AllUsed(UsedSlots(ExpireUpTo(s, now, |s|)))
  {
    NothingExpiredRemains(s, now, |s|);
    var i :| 0 <= i < |s| && !UsedSlots(s)[i];
    assert !UsedSlots(ExpireUpTo(s, now, |s|))[i];
  }

  class BanEngine {
    const events: EventList
    const bans: BanList

    ghost predicate Valid()
      reads this, events, events.entries, bans, bans.entries
    {
      events.Valid() && bans.Valid()
    }

    constructor (events: EventList, bans: BanList)
      requires events.Valid() && bans.Valid()
      ensures Valid() && this.events == events && this.bans == bans
    {
      this.events, this.bans := events, bans;
    }

    /** Find the key's entry, or make one if the rule counts anything. */
    method Entry(key: Key, rule: Rule, now: int) returns (at: Option<nat>, ghost ev: Occurrence)
      requires events.Valid() && key.typ > 0
      requires !AllUsed(UsedEvents(events.entries[..])) || events.nextSlot < events.entries.Length
      modifies events, events.entries
      ensures events.Valid() && ev == Occurrence(key, rule, now, ev.room)
      ensures !AllUsed(UsedEvents(old(events.entries[..]))) ==> ev.room
      ensures at.None? ==> forall i :: 0 <= i < events.entries.Length ==> KeyOf(events.entries[i]) != key
      ensures at.Some? ==> at.value < events.entries.Length && KeyOf(events.entries[at.value]) == key
      ensures OpenedIn(old(events.entries[..]), events.entries[..], ev)
      ensures !Short(key) ==> at.None? && TakesSlot(old(events.entries[..]), events.entries[..], ev)
    {
      ghost var before := events.entries[..];
      ev := Occurrence(key, rule, now, true);
      at := events.Get(key);
      if at.Some? {
        PresentIsOpened(before, at.value, ev);
      } else if rule.countMax > 0 {
        assert forall i :: 0 <= i < events.entries.Length ==> events.entries[i] == before[i];
        var ok := events.Add(key, rule, now);
        ev := ev.(room := ok);
        if ok {
          ghost var d: nat :| FirstOpen(UsedEvents(before), old(events.nextSlot), d) &&
                              events.entries[..] == before[Slot(|before|, old(events.nextSlot), d) := NewEvent(key, rule, now)];
          OpenedByAdd(before, Slot(|before|, old(events.nextSlot), d), ev);
        }
        at := events.Get(key);
      }
    }

    /** Put the source on the ban list unless an entry, even an expired one, already bans it. */
    method Ban(banType: nat, sid: nat, src: string, rule: Rule, reason: string, now: int) returns (ended: bool)
      requires bans.Valid() && banType > 0
      requires !AllUsed(UsedSlots(bans.entries[..])) || bans.nextSlot < bans.entries.Length
      modifies bans, bans.entries
      ensures bans.Valid()
      ensures ended <==> NoHit(old(bans.entries[..]), banType, sid, src)
      ensures !ended ==> bans.entries[..] == old(bans.entries[..])
      ensures ended ==> Banned(old(bans.entries[..]), bans.entries[..], NewEntry(banType, sid, src, reason, rule.expires, rule.mesg, now), now)
    {
      ghost var before := bans.entries[..];
      var found, mesg := bans.Exists(banType, sid, src);
      ended := !found;
      if ended {
        bans.Expire(now);
        ghost var kept := bans.entries[..];
        ghost var from := bans.nextSlot;
        if !AllUsed(UsedSlots(before)) {
          BanExpiryLeavesOpenSlots(before, now);
        }
        var ok := bans.Add(banType, sid, src, reason, rule.expires, rule.mesg, now);
        if ok {
          ghost var d: nat :| FirstOpen(UsedSlots(kept), from, d) &&
                              bans.entries[..] == kept[Slot(|kept|, from, d) := NewEntry(banType, sid, src, reason, rule.expires, rule.mesg, now)];
          assert kept[Slot(|kept|, from, d)].typ == 0;
        }
      }
    }

    /** Count one more event at the entry found. */
    method Bump(at: nat) returns (reached: bool)
      requires events.Valid() && at < events.entries.Length && events.entries[at].typ != 0
      modifies events.entries
      ensures events.Valid()
      ensures events.entries[..] == old(events.entries[..])[at := Bumped(old(events.entries[at]))]
      ensures reached <==> events.entries[at].countCurr >= events.entries[at].countMax
    {
      ghost var before := events.entries[..];
      UsedEventsAfterUpdate(before, at, Bumped(before[at]));
      if events.entries[at].countCurr < events.entries[at].countMax {
        events.entries[at] := events.entries[at].(countCurr := events.entries[at].countCurr + 1);
      }
      assert events.entries[..] == before[at := Bumped(before[at])];
      reached := events.entries[at].countCurr >= events.entries[at].countMax;
    }

    /** `ban_handle_event`: both tables move as `HandlerStep` says, and event keys stay
    unique. */
    method HandleEvent(key: Key, banType: nat, rule: Rule, reason: string, now: int) returns (ended: bool, ghost ev: Occurrence)
      requires Valid() && key.typ > 0 && banType > 0
      requires !AllUsed(UsedEvents(events.entries[..])) || events.nextSlot < events.entries.Length
      requires !AllUsed(UsedSlots(bans.entries[..])) || bans.nextSlot < bans.entries.Length
      modifies events, events.entries, bans, bans.entries
      ensures Valid()
      ensures ev == Occurrence(key, rule, now, ev.room) && (!AllUsed(UsedEvents(old(events.entries[..]))) ==> ev.room)
      ensures HandlerStep(old(events.entries[..]), old(bans.entries[..]), events.entries[..], bans.entries[..],
                          Call(ev, banType, reason), ended)
      ensures UniqueKeys(old(events.entries[..])) && Short(key) ==> UniqueKeys(events.entries[..])
      ensures !Short(key) ==> LongStep(old(events.entries[..]), old(bans.entries[..]), events.entries[..], bans.entries[..], ev, ended)
    {
      ghost var s := events.entries[..];
      events.Expire(now);
      ghost var t := events.entries[..];
      if !AllUsed(UsedEvents(s)) {
        ExpiryLeavesOpenSlots(s, t, now);
      }
      var at;
      at, ev := Entry(key, rule, now);
      ghost var u := events.entries[..];
      ended := false;
      ghost var v, b := u, bans.entries[..];
      var reached := false;
      if at.Some? {
        reached := Bump(at.value);
        v := events.entries[..];
        HandledInThreeSteps(s, t, u, v, at, ev);
        assert v[at.value] == events.entries[at.value];
        ReachedAtEntry(s, v, at.value, ev);
      } else {
        HandledInThreeSteps(s, t, u, u, at, ev);
        NotReachedWithoutEntry(s, u, ev);
      }
      if reached {
        ended := Ban(banType, key.sid, key.src, rule, reason, now);
      }
      StepAssembled(s, b, v, bans.entries[..], Call(ev, banType, reason), ended, reached);
      if UniqueKeys(s) && Short(key) {
        HandledKeepsUnique(s, v, ev);
      }
    }
  }

  /** What the handler saw at the entry it found is what the key's entry says. */
  ghost predicate SeenReached(s: seq<Event>, ev: Occurrence, reached: bool) {
    forall o :: Holds(s, ev.key, o) && NoClash(ev, ev.key) ==> (Reached(Followed(o, ev, ev.key)) <==> reached)
  }

  lemma ReachedAtEntry(s: seq<Event>, v: seq<Event>, at: nat, ev: Occurrence)
    requires Handled(s, v, ev) && at < |v| && KeyOf(v[at]) == ev.key && ev.key.typ > 0
    ensures SeenReached(s, ev, v[at].countCurr >= v[at].countMax)
  {
    forall o | Holds(s, ev.key, o) && NoClash(ev, ev.key)
      ensures Followed(o, ev, ev.key) == Some(v[at])
    {
      HoldsOne(v, ev.key, Followed(o, ev, ev.key), at);
    }
  }

  lemma NotReachedWithoutEntry(s: seq<Event>, v: seq<Event>, ev: Occurrence)
    requires Handled(s, v, ev) && ev.key.typ > 0 && forall i :: 0 <= i < |v| ==> KeyOf(v[i]) != ev.key
    ensures SeenReached(s, ev, false)
  {
  }

  lemma StepAssembled(es: seq<Event>, bs: seq<Entry>, es': seq<Event>, bs': seq<Entry>, c: Call, ended: bool, reached: bool)
    requires Handled(es, es', c.ev) && SeenReached(es, c.ev, reached)
    requires ended <==> reached && NoHit(bs, c.banType, c.ev.key.sid, c.ev.key.src)
    requires !ended ==> bs' == bs
    requires ended ==> Banned(bs, bs', BanOf(c), c.ev.now)
    ensures HandlerStep(es, bs, es', bs', c, ended)
  {
  }

  /** An entry that serves the source, expired or not, keeps the handler from banning it. */
  lemma AnyHitSuppresses(es: seq<Event>, bs: seq<Entry>, es': seq<Event>, c: Call)
    requires Handled(es, es', c.ev) && !NoHit(bs, c.banType, c.ev.key.sid, c.ev.key.src)
    ensures HandlerStep(es, bs, es', bs, c, false)
  {
  }

  lemma CountedInPlace(s: seq<Event>, at: nat, ev: Occurrence)
    requires at < |s| && KeyOf(s[at]) == ev.key && Sound(s) && forall i :: 0 <= i < |s| ==> !Stale(s[i], ev.now)
    ensures Handled(s, s[at := Bumped(s[at])], ev)
  {
    PresentIsOpened(s, at, ev);
    HandledInThreeSteps(s, s, s, s[at := Bumped(s[at])], Some(at), ev);
  }

  /** An expired ban that no one has cleared yet suppresses the new one: the threshold is
  reached, every entry in the ban list has expired, and still the handler leaves the list
  alone and the session alive. */
  lemma ExpiredBanSuppressesNew() returns (es: seq<Event>, bs: seq<Entry>, es': seq<Event>, c: Call)
    ensures HandlerStep(es, bs, es', bs, c, false)
    ensures exists o :: Holds(es, c.ev.key, o) && Reached(Followed(o, c.ev, c.ev.key))
    ensures |bs| == 1 && Expired(bs[0], c.ev.now)
  {
    var k := Key(1, 1, "x");
    c := Call(Occurrence(k, Rule(1, 10, 5, None), 100, true), 2, "");
    es := [Event(1, "x", 1, 0, 95, 10, 5, "", 1)];
    es' := es[0 := Bumped(es[0])];
    bs := [Entry(2, "x", "", "", 90, 1)];
    CountedInPlace(es, 0, c.ev);
    assert Hit(bs[0], 2, 1, "x");
    AnyHitSuppresses(es, bs, es', c);
    assert Holds(es, k, Some(es[0])) && Reached(Followed(Some(es[0]), c.ev, k));
  }
}
