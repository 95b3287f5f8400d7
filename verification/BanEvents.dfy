/** The ban event list: counts of events of one type from one source on one server, each
within a window anchored at the first of them.
*/
module BanEvents {
  import opened Optional
  import opened SlotSearch
  import opened BanTable

  datatype Key = Key(typ: nat, sid: nat, src: string)

  datatype Event = Event(
    typ: nat, src: string, countMax: nat, countCurr: nat,
    start: int, window: int, expires: int, mesg: string, sid: nat)

  const FREE_EVENT := Event(0, "", 0, 0, 0, 0, 0, "", 0)

  /** The BanOnEvent rule an event is held against. */
  datatype Rule = Rule(countMax: nat, window: int, expires: int, mesg: Option<string>)

  function KeyOf(e: Event): Key { Key(e.typ, e.sid, e.src) }

  /** A fresh entry; its count is the zero of the free slot it is written over. */
  function NewEvent(k: Key, rule: Rule, now: int): Event {
    Event(k.typ, Copied(k.src), rule.countMax, 0, now, rule.window, rule.expires, "", k.sid)
  }

  function UsedEvents(s: seq<Event>): seq<bool> { seq(|s|, i requires 0 <= i < |s| => s[i].typ != 0) }

  /** The window has passed. An entry whose rule gives no ban duration never goes stale;
  the configuration refuses such rules. */
  predicate Stale(e: Event, now: int) { e.typ != 0 && e.expires != 0 && e.start + e.window <= now }

  /** Free slots are zeroed and no count is past its threshold. */
  ghost predicate Sound(s: seq<Event>) {
    && (forall i :: 0 <= i < |s| && s[i].typ == 0 ==> s[i] == FREE_EVENT)
    && (forall i :: 0 <= i < |s| ==> s[i].countCurr <= s[i].countMax && |s[i].src| < BAN_STRING_MAXSZ)
  }

  /** The list tracks this key in at most one slot, and o is what it holds for it. */
  ghost predicate Holds(s: seq<Event>, k: Key, o: Option<Event>) {
    && (forall i, j :: 0 <= i < j < |s| && KeyOf(s[i]) == k ==> KeyOf(s[j]) != k)
    && match o {
      case None => forall i :: 0 <= i < |s| ==> KeyOf(s[i]) != k
      case Some(e) => exists i :: 0 <= i < |s| && s[i] == e && KeyOf(e) == k
    }
  }

  ghost predicate UniqueKeys(s: seq<Event>) {
    forall i, j :: 0 <= i < j < |s| && s[i].typ != 0 ==> KeyOf(s[i]) != KeyOf(s[j])
  }

  /** Unique keys are what makes the list hold one thing for every key. */
  lemma UniqueHolds(s: seq<Event>, k: Key) returns (o: Option<Event>)
    requires UniqueKeys(s) && k.typ > 0
    ensures Holds(s, k, o)
  {
    if i :| 0 <= i < |s| && KeyOf(s[i]) == k {
      o := Some(s[i]);
    } else {
      o := None;
    }
  }

  lemma ClearingKeepsUnique(s: seq<Event>, t: seq<Event>)
    requires UniqueKeys(s) && |t| == |s| && forall i :: 0 <= i < |s| ==> t[i] == s[i] || t[i] == FREE_EVENT
    ensures UniqueKeys(t)
  {
    forall i, j | 0 <= i < j < |t| && t[i].typ != 0
      ensures KeyOf(t[i]) != KeyOf(t[j])
    {
      assert t[i] == s[i] && KeyOf(s[i]) != KeyOf(s[j]);
    }
  }

  /** No other slot has this slot's key. */
  ghost predicate Alone(s: seq<Event>, i: nat)
    requires i < |s|
  {
    forall j :: 0 <= j < |s| && KeyOf(s[j]) == KeyOf(s[i]) ==> j == i
  }

  /** What expiry up to slot n makes of a list: it only clears slots, and a slot whose key
  is not repeated is cleared exactly when its window has passed. */
  ghost predicate Shed(s: seq<Event>, t: seq<Event>, now: int, n: nat) {
    && |s| == |t|
    && (forall i :: 0 <= i < |s| ==> t[i] == s[i] || t[i] == FREE_EVENT)
    && (forall i :: 0 <= i < |s| && s[i].typ != 0 && Alone(s, i) ==>
          t[i] == if i < n && Stale(s[i], now) then FREE_EVENT else s[i])
  }

  /** On the times alone: expiry clears an entry whose key is not repeated if and only if its
  rule gives a ban duration and its window, which starts with its first event, has passed. */
  lemma ShedOnTime(s: seq<Event>, t: seq<Event>, now: int, i: nat)
    requires Shed(s, t, now, |s|) && i < |s| && s[i].typ != 0 && Alone(s, i)
    ensures t[i] == if s[i].expires != 0 && s[i].start + s[i].window <= now then FREE_EVENT else s[i]
  {
  }

  /** Exactly the entries of the type and server are cleared. */
  ghost predicate TypeRemoved(s: seq<Event>, t: seq<Event>, typ: nat, sid: nat) {
    && |t| == |s|
    && forall i :: 0 <= i < |s| ==> t[i] == if s[i].typ == typ && s[i].sid == sid then FREE_EVENT else s[i]
  }

  lemma UsedEventsAfterUpdate(s: seq<Event>, i: nat, e: Event)
    requires i < |s|
    ensures UsedEvents(s[i := e]) == UsedEvents(s)[i := e.typ != 0]
    ensures CountUsed(UsedEvents(s[i := e]))
            == CountUsed(UsedEvents(s)) - (if s[i].typ != 0 then 1 else 0) + (if e.typ != 0 then 1 else 0)
  {
    assert UsedEvents(s[i := e]) == UsedEvents(s)[i := e.typ != 0];
    CountOfUpdate(UsedEvents(s), i, e.typ != 0);
  }

  lemma NoEventsIff(s: seq<Event>)
    ensures CountUsed(UsedEvents(s)) == 0 <==> forall i :: 0 <= i < |s| ==> s[i].typ == 0
  {
    CountZeroIff(UsedEvents(s));
    var used := UsedEvents(s);
    assert forall i :: 0 <= i < |s| ==> used[i] == (s[i].typ != 0);
  }

  /** Removing the first entry with slot i's key, once slot i is found stale. */
  lemma ShedOne(s: seq<Event>, t: seq<Event>, now: int, i: nat, m: nat)
    requires Shed(s, t, now, i) && i < |s| && Stale(t[i], now)
    requires m < |s| && KeyOf(t[m]) == KeyOf(t[i])
    ensures Shed(s, t[m := FREE_EVENT], now, i + 1)
  {
    assert t[m].typ != 0 && t[m] == s[m] && t[i] == s[i];
    if m != i {
      assert !Alone(s, i) && !Alone(s, m);
    }
  }

  class EventList {
    const entries: array<Event>
    var listlen: nat
    var nextSlot: nat

    ghost predicate Valid()
      reads this, entries
    {
      && entries.Length > 0 && nextSlot <= entries.Length
      && listlen == CountUsed(UsedEvents(entries[..]))
      && Sound(entries[..])
    }

    constructor (capacity: nat)
      requires capacity > 0
      ensures Valid() && fresh(entries) && entries.Length == capacity && nextSlot == 0
      ensures forall i :: 0 <= i < capacity ==> entries[i] == FREE_EVENT
    {
      entries := new Event[capacity](_ => FREE_EVENT);
      listlen, nextSlot := 0, 0;
      new;
      NoEventsIff(entries[..]);
    }

    /** `ban_event_list_add`. The count is not written: it is zero because the slot was. */
    method Add(k: Key, rule: Rule, now: int) returns (ok: bool)
      requires Valid() && k.typ > 0
      requires !AllUsed(UsedEvents(entries[..])) || nextSlot < entries.Length
      modifies this, entries
      ensures Valid()
      ensures ok <==> !AllUsed(UsedEvents(old(entries[..])))
      ensures ok ==> exists d: nat ::
                       && FirstOpen(UsedEvents(old(entries[..])), old(nextSlot), d)
                       && var slot := Slot(entries.Length, old(nextSlot), d);
                       && nextSlot == slot + 1
                       && entries[..] == old(entries[..])[slot := NewEvent(k, rule, now)]
      ensures !ok ==> entries[..] == old(entries[..]) && nextSlot == old(nextSlot)
    {
      ghost var before := entries[..];
      var slot: nat;
      ok, slot := FindSlot(UsedEvents(entries[..]), nextSlot);
      nextSlot := slot;
      if ok {
        var e := entries[slot].(typ := k.typ, sid := k.sid, src := Copied(k.src), countMax := rule.countMax,
                                start := now, window := rule.window, expires := rule.expires);
        assert before[slot].typ == 0;
        assert e == NewEvent(k, rule, now);
        UsedEventsAfterUpdate(before, slot, e);
        entries[slot] := e;
        assert entries[..] == before[slot := e];
        nextSlot := nextSlot + 1;
        listlen := listlen + 1;
      }
    }

    /** `ban_event_list_get`: the first slot with this key; the length-zero shortcut answers
    as a full scan would. */
    method Get(k: Key) returns (at: Option<nat>)
      requires Valid() && k.typ > 0
      ensures at.None? <==> forall i :: 0 <= i < entries.Length ==> KeyOf(entries[i]) != k
      ensures at.Some? ==> && at.value < entries.Length && KeyOf(entries[at.value]) == k
                           && forall i :: 0 <= i < at.value ==> KeyOf(entries[i]) != k
    {
      if listlen > 0 {
        var i := 0;
        while i < entries.Length
          invariant 0 <= i <= entries.Length
          invariant forall j :: 0 <= j < i ==> KeyOf(entries[j]) != k
        {
          if KeyOf(entries[i]) == k {
            return Some(i);
          }
          i := i + 1;
        }
      } else {
        NoEventsIff(entries[..]);
        assert forall j :: 0 <= j < entries.Length ==> entries[j] == entries[..][j];
      }
      at := None;
    }

    method ClearSlot(i: nat)
      requires Valid() && i < entries.Length && entries[i].typ != 0
      modifies this`listlen, entries
      ensures Valid() && entries[..] == old(entries[..])[i := FREE_EVENT]
    {
      ghost var before := entries[..];
      UsedEventsAfterUpdate(before, i, FREE_EVENT);
      entries[i] := FREE_EVENT;
      assert entries[..] == before[i := FREE_EVENT];
      listlen := listlen - 1;
    }

    /** `ban_event_list_remove` with a source: the first entry with the key goes. */
    method RemoveOne(k: Key) returns (ok: bool)
      requires Valid() && k.typ > 0
      modifies this`listlen, entries
      ensures Valid()
      ensures !ok ==> entries[..] == old(entries[..]) && forall i :: 0 <= i < entries.Length ==> KeyOf(entries[i]) != k
      ensures ok ==> exists i :: && 0 <= i < entries.Length && KeyOf(old(entries[..])[i]) == k
                                 && (forall j :: 0 <= j < i ==> KeyOf(old(entries[..])[j]) != k)
                                 && entries[..] == old(entries[..])[i := FREE_EVENT]
    {
      var at := Get(k);
      ok := at.Some?;
      if ok {
        ClearSlot(at.value);
      }
    }

    /** `ban_event_list_remove` without a source: every entry of the type and server goes. */
    method RemoveType(typ: nat, sid: nat)
      requires Valid() && typ > 0
      modifies this`listlen, entries
      ensures Valid()
      ensures forall i :: 0 <= i < entries.Length ==>
                entries[i] == if old(entries[i]).typ == typ && old(entries[i]).sid == sid then FREE_EVENT else old(entries[i])
      ensures TypeRemoved(old(entries[..]), entries[..], typ, sid)
    {
      ghost var before := entries[..];
      if listlen == 0 {
        NoEventsIff(before);
        assert forall j :: 0 <= j < entries.Length ==> entries[j] == before[j];
        return;
      }
      var i := 0;
      while i < entries.Length
        invariant 0 <= i <= entries.Length && Valid()
        invariant forall j :: 0 <= j < i ==>
                    entries[j] == if before[j].typ == typ && before[j].sid == sid then FREE_EVENT else before[j]
        invariant forall j :: i <= j < entries.Length ==> entries[j] == before[j]
      {
        if entries[i].typ == typ && entries[i].sid == sid {
          ghost var was := entries[..];
          ClearSlot(i);
          assert forall j :: 0 <= j < entries.Length ==> entries[j] == was[i := FREE_EVENT][j];
        }
        i := i + 1;
      }
    }

    /** `ban_event_list_expire` */
    method Expire(now: int)
      requires Valid()
      modifies this`listlen, entries
      ensures Valid() && Shed(old(entries[..]), entries[..], now, entries.Length)
    {
      ghost var before := entries[..];
      if listlen == 0 {
        NoEventsIff(before);
        return;
      }
      var i := 0;
      while i < entries.Length
        invariant 0 <= i <= entries.Length && Valid()
        invariant Shed(before, entries[..], now, i)
      {
        ghost var was := entries[..];
        assert entries[i] == was[i];
        var end := entries[i].start + entries[i].window;
        if entries[i].typ != 0 && entries[i].expires != 0 && !(end > now) {
          var ok := RemoveOne(KeyOf(entries[i]));
          ghost var m :| 0 <= m < |was| && KeyOf(was[m]) == KeyOf(was[i]) && entries[..] == was[m := FREE_EVENT];
          ShedOne(before, was, now, i, m);
        }
        i := i + 1;
      }
    }
  }
}
