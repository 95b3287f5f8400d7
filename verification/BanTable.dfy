/** The ban list: a fixed array of slots in shared memory, a roving cursor and a cached
number of entries. The memcached mirror is not modelled.

Names are C strings, compared whole; a name longer than 127 characters is cut when it
is stored. Times are seconds; an expiry of zero means never.
*/
module BanTable {
  import opened Optional
  import opened SlotSearch

  const BAN_STRING_MAXSZ: nat := 128
  const BAN_LIST_MAXSZ: nat := 512

  datatype Entry = Entry(typ: nat, name: string, reason: string, mesg: string, expires: int, sid: nat)

  /** A zeroed slot. */
  const FREE := Entry(0, "", "", "", 0, 0)

  /** sstrncpy into a buffer of BAN_STRING_MAXSZ characters */
  function Copied(s: string): string { if |s| < BAN_STRING_MAXSZ then s else s[..BAN_STRING_MAXSZ - 1] }

  function NewEntry(typ: nat, sid: nat, name: string, reason: string, lasts: int, mesg: Option<string>, now: int): Entry {
    Entry(typ, Copied(name), Copied(reason), if mesg.Some? then Copied(mesg.value) else "",
          if lasts != 0 then now + lasts else 0, sid)
  }

  /** What a reader of the entry sees of a text: all of it, or its first 127 characters. */
  predicate Shows(stored: string, given: string) {
    stored <= given && (if |given| < BAN_STRING_MAXSZ then stored == given else |stored| == BAN_STRING_MAXSZ - 1)
  }

  /** A new ban shows its own texts, and no message if none was given. */
  lemma NewEntryShows(typ: nat, sid: nat, name: string, reason: string, lasts: int, mesg: Option<string>, now: int)
    ensures var e := NewEntry(typ, sid, name, reason, lasts, mesg, now);
            && e.typ == typ && e.sid == sid && Shows(e.name, name) && Shows(e.reason, reason)
            && (if mesg.Some? then Shows(e.mesg, mesg.value) else e.mesg == "")
  {
  }

  // ---------------------------------------------------------------------------
  // Slots

  function UsedSlots(s: seq<Entry>): seq<bool> { seq(|s|, i requires 0 <= i < |s| => s[i].typ != 0) }

  ghost predicate FreeAreZero(s: seq<Entry>) { forall i :: 0 <= i < |s| && s[i].typ == 0 ==> s[i] == FREE }

  lemma UsedAfterUpdate(s: seq<Entry>, i: nat, e: Entry)
    requires i < |s|
    ensures UsedSlots(s[i := e]) == UsedSlots(s)[i := e.typ != 0]
    ensures CountUsed(UsedSlots(s[i := e]))
            == CountUsed(UsedSlots(s)) - (if s[i].typ != 0 then 1 else 0) + (if e.typ != 0 then 1 else 0)
  {
    assert UsedSlots(s[i := e]) == UsedSlots(s)[i := e.typ != 0];
    CountOfUpdate(UsedSlots(s), i, e.typ != 0);
  }

  lemma NoneUsedIff(s: seq<Entry>)
    ensures CountUsed(UsedSlots(s)) == 0 <==> forall i :: 0 <= i < |s| ==> s[i].typ == 0
  {
    CountZeroIff(UsedSlots(s));
    var used := UsedSlots(s);
    assert forall i :: 0 <= i < |s| ==> used[i] == (s[i].typ != 0);
  }

  // ---------------------------------------------------------------------------
  // Lookup and removal

  /** An entry that ban_list_exists accepts: an entry for all servers serves any. */
  predicate Hit(e: Entry, typ: nat, sid: nat, name: string) {
    e.typ == typ && (e.sid == 0 || e.sid == sid) && e.name == name
  }

  /** An entry that ban_list_remove clears: a zero sid or an absent name is a wildcard. */
  predicate Target(e: Entry, typ: nat, sid: nat, name: Option<string>) {
    e.typ == typ && (sid == 0 || e.sid == sid) && (name.None? || e.name == name.value)
  }

  function RemoveAll(s: seq<Entry>, typ: nat, sid: nat, name: Option<string>): seq<Entry> {
    seq(|s|, i requires 0 <= i < |s| => if Target(s[i], typ, sid, name) then FREE else s[i])
  }

  ghost predicate FirstTarget(s: seq<Entry>, typ: nat, sid: nat, name: Option<string>, i: nat) {
    i < |s| && Target(s[i], typ, sid, name) && forall j :: 0 <= j < i ==> !Target(s[j], typ, sid, name)
  }

  // ---------------------------------------------------------------------------
  // Expiry

  predicate Expired(e: Entry, now: int) { e.typ != 0 && e.expires != 0 && e.expires <= now }

  predicate SameName(a: Entry, b: Entry) { a.typ == b.typ && a.name == b.name }

  /** What the removal of slot i's ban clears, given that the name it compares with is read
  from slot i: up to i itself the name is intact, beyond it is the empty string. */
  predicate AliasedTarget(s: seq<Entry>, i: nat, j: nat)
    requires i < |s| && j < |s|
  {
    s[j].typ == s[i].typ && (if j <= i then s[j].name == s[i].name else s[j].name == "")
  }

  function RemoveAliased(s: seq<Entry>, i: nat): seq<Entry>
    requires i < |s|
  {
    seq(|s|, j requires 0 <= j < |s| => if AliasedTarget(s, i, j) then FREE else s[j])
  }

  /** The list after the expiry scan has passed the first n slots. */
  function ExpireUpTo(s: seq<Entry>, now: int, n: nat): seq<Entry>
    requires n <= |s|
    ensures |ExpireUpTo(s, now, n)| == |s|
  {
    if n == 0 then s
    else
      var t := ExpireUpTo(s, now, n - 1);
      if Expired(t[n - 1], now) then RemoveAliased(t, n - 1) else t
  }

  /** Nothing expired is left, whatever the names. */
  lemma {:induction false} NothingExpiredRemains(s: seq<Entry>, now: int, n: nat)
    requires n <= |s|
    ensures forall j :: 0 <= j < n ==> !Expired(ExpireUpTo(s, now, n)[j], now)
    ensures forall j :: 0 <= j < |s| ==> ExpireUpTo(s, now, n)[j] == s[j] || ExpireUpTo(s, now, n)[j] == FREE
  {
    if n > 0 {
      NothingExpiredRemains(s, now, n - 1);
    }
  }

  ghost predicate NoEmptyNames(s: seq<Entry>) { forall i :: 0 <= i < |s| && s[i].typ != 0 ==> s[i].name != "" }

  /** Entry j falls with the expiry of the first n slots: it has expired itself, or an
  expired entry of the same type and name stands after it. */
  ghost predicate Doomed(s: seq<Entry>, now: int, n: nat, j: nat)
    requires n <= |s| && j < |s|
  {
    exists i: nat :: i < n && j <= i && Expired(s[i], now) && SameName(s[i], s[j])
  }

  /** Exactly what expiry removes when no name is empty. Entries of the same name for other
  servers go only if they stand before the expired one: the name the scan compares with
  is wiped when the expired slot is cleared. */
  lemma {:induction false} ExpiryRemovesExactly(s: seq<Entry>, now: int, n: nat)
    requires n <= |s| && NoEmptyNames(s) && FreeAreZero(s)
    ensures forall j: nat :: j < |s| ==> ExpireUpTo(s, now, n)[j] == if Doomed(s, now, n, j) then FREE else s[j]
  {
    if n > 0 {
      var i := n - 1;
      ExpiryRemovesExactly(s, now, i);
      var t := ExpireUpTo(s, now, i);
      forall j: nat | j < |s|
        ensures ExpireUpTo(s, now, n)[j] == if Doomed(s, now, n, j) then FREE else s[j]
      {
        assert Doomed(s, now, n, j) <==> Doomed(s, now, i, j) || (j <= i && Expired(s[i], now) && SameName(s[i], s[j]));
        assert !Doomed(s, now, i, i);
      }
    }
  }

  /** On the times alone, with no empty names: an entry goes only if some entry of its type and
  name has a time set, and that time has come. */
  lemma {:induction false} GoneOnlyWithTime(s: seq<Entry>, now: int, j: nat)
    requires NoEmptyNames(s) && FreeAreZero(s) && j < |s| && ExpireUpTo(s, now, |s|)[j] != s[j]
    ensures exists i: nat ::
              i < |s| && s[i].typ == s[j].typ && s[i].name == s[j].name && s[i].expires != 0 && s[i].expires <= now
  {
    ExpiryRemovesExactly(s, now, |s|);
    var i: nat :| i < |s| && j <= i && Expired(s[i], now) && SameName(s[i], s[j]);
  }

  /** A used entry whose time has come is gone. */
  lemma {:induction false} GoneInTime(s: seq<Entry>, now: int, j: nat)
    requires j < |s| && s[j].typ != 0 && s[j].expires != 0 && s[j].expires <= now
    ensures ExpireUpTo(s, now, |s|)[j] == FREE
  {
    NothingExpiredRemains(s, now, |s|);
  }

  /** A table in which every entry is for ever or has time left is left alone, whatever the
  names. */
  lemma {:induction false} TimeLeftTimeKept(s: seq<Entry>, now: int, n: nat)
    requires n <= |s| && forall i :: 0 <= i < |s| && s[i].typ != 0 ==> s[i].expires == 0 || s[i].expires > now
    ensures ExpireUpTo(s, now, n) == s
  {
    if n > 0 {
      TimeLeftTimeKept(s, now, n - 1);
    }
  }

  /** No other entry of slot i's type and name has run out of time. */
  ghost predicate NamesakesLast(s: seq<Entry>, i: nat, now: int)
    requires i < |s|
  {
    forall j :: 0 <= j < |s| && j != i && s[j].typ == s[i].typ && s[j].name == s[i].name ==>
      s[j].expires == 0 || s[j].expires > now
  }

  /** A ban made at `at` for `lasts` seconds, or for ever if that is zero, is kept by an expiry
  if and only if its time is not over, unless an expired namesake takes it along. */
  lemma {:induction false} KeptIffTimeLeft(s: seq<Entry>, i: nat, sid: nat, name: string, reason: string, lasts: nat, mesg: Option<string>,
                        at: nat, now: int)
    requires NoEmptyNames(s) && FreeAreZero(s) && i < |s| && s[i].typ > 0
    requires s[i] == NewEntry(s[i].typ, sid, name, reason, lasts, mesg, at) && NamesakesLast(s, i, now)
    ensures ExpireUpTo(s, now, |s|)[i] == (if lasts == 0 || now < at + lasts then s[i] else FREE)
  {
    if lasts != 0 && at + lasts <= now {
      GoneInTime(s, now, i);
    } else if ExpireUpTo(s, now, |s|)[i] != s[i] {
      GoneOnlyWithTime(s, now, i);
    }
  }

  // ---------------------------------------------------------------------------
  // The list object

  class BanList {
    const entries: array<Entry>
    var listlen: nat
    var nextSlot: nat

    /** The cached length is the number of used slots and a free slot is all zero. */
    ghost predicate Valid()
      reads this, entries
    {
      && entries.Length > 0 && nextSlot <= entries.Length
      && listlen == CountUsed(UsedSlots(entries[..]))
      && FreeAreZero(entries[..])
    }

    /** Freshly attached shared memory; the source's capacity is BAN_LIST_MAXSZ. */
    constructor (capacity: nat)
      requires capacity > 0
      ensures Valid() && fresh(entries) && entries.Length == capacity && nextSlot == 0
      ensures forall i :: 0 <= i < capacity ==> entries[i] == FREE
    {
      entries := new Entry[capacity](_ => FREE);
      listlen, nextSlot := 0, 0;
      new;
      NoneUsedIff(entries[..]);
    }

    /** `ban_list_add`. Callers pass a ban type, which is never zero. The search below does
    not return when the list is full and the cursor is past the last slot. */
    method Add(typ: nat, sid: nat, name: string, reason: string, lasts: int, mesg: Option<string>, now: int)
      returns (ok: bool)
      requires Valid() && typ > 0
      requires !AllUsed(UsedSlots(entries[..])) || nextSlot < entries.Length
      modifies this, entries
      ensures Valid()
      ensures ok <==> !AllUsed(UsedSlots(old(entries[..])))
      ensures ok ==> exists k: nat ::
                       && FirstOpen(UsedSlots(old(entries[..])), old(nextSlot), k)
                       && var slot := Slot(entries.Length, old(nextSlot), k);
                       && entries[..] == old(entries[..])[slot := NewEntry(typ, sid, name, reason, lasts, mesg, now)]
                       && nextSlot == slot + 1 && listlen == old(listlen) + 1
      ensures !ok ==> entries[..] == old(entries[..]) && nextSlot == old(nextSlot) && listlen == old(listlen)
    {
      ghost var before := entries[..];
      var slot: nat;
      ok, slot := FindSlot(UsedSlots(entries[..]), nextSlot);
      nextSlot := slot;
      if ok {
        UsedAfterUpdate(before, slot, NewEntry(typ, sid, name, reason, lasts, mesg, now));
        entries[slot] := NewEntry(typ, sid, name, reason, lasts, mesg, now);
        assert entries[..] == before[slot := NewEntry(typ, sid, name, reason, lasts, mesg, now)];
        nextSlot := nextSlot + 1;
        listlen := listlen + 1;
      }
    }

    /** `ban_list_exists`: the length-zero shortcut answers as a full scan would; the message
    is that of the first entry that serves, if it has one. */
    method Exists(typ: nat, sid: nat, name: string) returns (found: bool, mesg: Option<string>)
      requires Valid() && typ > 0
      ensures found <==> exists i :: 0 <= i < entries.Length && Hit(entries[i], typ, sid, name)
      ensures found ==> exists i :: && 0 <= i < entries.Length && Hit(entries[i], typ, sid, name)
                                    && (forall j :: 0 <= j < i ==> !Hit(entries[j], typ, sid, name))
                                    && mesg == (if entries[i].mesg == "" then None else Some(entries[i].mesg))
      ensures !found ==> mesg == None
    {
      mesg := None;
      if listlen > 0 {
        var i := 0;
        while i < entries.Length
          invariant 0 <= i <= entries.Length
          invariant forall j :: 0 <= j < i ==> !Hit(entries[j], typ, sid, name)
        {
          if Hit(entries[i], typ, sid, name) {
            if |entries[i].mesg| > 0 {
              mesg := Some(entries[i].mesg);
            }
            return true, mesg;
          }
          i := i + 1;
        }
      } else {
        NoneUsedIff(entries[..]);
        assert forall j :: 0 <= j < entries.Length ==> entries[j] == entries[..][j];
      }
      found := false;
    }

    method ClearSlot(i: nat)
      requires Valid() && i < entries.Length && entries[i].typ != 0
      modifies this`listlen, entries
      ensures Valid() && entries[..] == old(entries[..])[i := FREE] && listlen == old(listlen) - 1
    {
      UsedAfterUpdate(entries[..], i, FREE);
      ghost var before := entries[..];
      entries[i] := FREE;
      assert entries[..] == before[i := FREE];
      listlen := listlen - 1;
    }

    /** `ban_list_remove`: a full key removes its first entry and reports whether there was
    one; with a wildcard every target goes and the call always succeeds. */
    method Remove(typ: nat, sid: nat, name: Option<string>) returns (ok: bool)
      requires Valid() && typ > 0
      modifies this`listlen, entries
      ensures Valid()
      ensures sid == 0 || name.None? ==> ok && entries[..] == RemoveAll(old(entries[..]), typ, sid, name)
      ensures sid != 0 && name.Some? ==>
                && (ok <==> exists i: nat :: FirstTarget(old(entries[..]), typ, sid, name, i))
                && (ok ==> exists i: nat :: FirstTarget(old(entries[..]), typ, sid, name, i)
                                         && entries[..] == old(entries[..])[i := FREE])
                && (!ok ==> entries[..] == old(entries[..]))
    {
      ghost var before := entries[..];
      if listlen > 0 {
        var i := 0;
        while i < entries.Length
          invariant 0 <= i <= entries.Length && Valid()
          invariant forall j :: 0 <= j < i ==> entries[j] == if Target(before[j], typ, sid, name) then FREE else before[j]
          invariant forall j :: i <= j < entries.Length ==> entries[j] == before[j]
          invariant sid != 0 && name.Some? ==> forall j :: 0 <= j < i ==> !Target(before[j], typ, sid, name)
        {
          if Target(entries[i], typ, sid, name) {
            ghost var now := entries[..];
            ClearSlot(i);
            assert forall j :: 0 <= j < entries.Length ==> entries[j] == now[i := FREE][j];
            if sid != 0 && name.Some? {
              assert FirstTarget(before, typ, sid, name, i) && entries[..] == before[i := FREE];
              return true;
            }
          }
          i := i + 1;
        }
      } else {
        NoneUsedIff(before);
      }
      assert sid == 0 || name.None? ==> entries[..] == RemoveAll(before, typ, sid, name);
      assert sid != 0 && name.Some? ==> entries[..] == before;
      ok := sid == 0 || name.None?;
    }

    /** ban_list_remove(type, 0, name) as ban_list_expire calls it: the name argument points
    into slot `at`, and is read again for every slot. */
    method RemoveNameOf(at: nat)
      requires Valid() && at < entries.Length && entries[at].typ != 0
      modifies this`listlen, entries
      ensures Valid() && entries[..] == RemoveAliased(old(entries[..]), at)
    {
      ghost var before := entries[..];
      var typ := entries[at].typ;
      var i := 0;
      while i < entries.Length
        invariant 0 <= i <= entries.Length && Valid()
        invariant forall j :: 0 <= j < i ==> entries[j] == if AliasedTarget(before, at, j) then FREE else before[j]
        invariant forall j :: i <= j < entries.Length ==> entries[j] == before[j]
      {
        if entries[i].typ == typ && entries[i].name == entries[at].name {
          ghost var now := entries[..];
          ClearSlot(i);
          assert forall j :: 0 <= j < entries.Length ==> entries[j] == now[i := FREE][j];
        }
        i := i + 1;
      }
      assert entries[..] == RemoveAliased(before, at);
    }

    /** `ban_list_expire` */
    method Expire(now: int)
      requires Valid()
      modifies this`listlen, entries
      ensures Valid() && entries[..] == ExpireUpTo(old(entries[..]), now, entries.Length)
      ensures forall i :: 0 <= i < entries.Length && entries[i].typ != 0 ==> entries[i].expires == 0 || entries[i].expires > now
      ensures (forall i :: 0 <= i < entries.Length && old(entries[i]).typ != 0 ==>
                 old(entries[i]).expires == 0 || old(entries[i]).expires > now) ==> entries[..] == old(entries[..])
    {
      ghost var before := entries[..];
      NothingExpiredRemains(before, now, |before|);
      if forall i :: 0 <= i < |before| && before[i].typ != 0 ==> before[i].expires == 0 || before[i].expires > now {
        TimeLeftTimeKept(before, now, |before|);
      }
      if listlen == 0 {
        NoneUsedIff(before);
        TimeLeftTimeKept(before, now, |before|);
        assert forall j :: 0 <= j < entries.Length ==> entries[j] == before[j];
        return;
      }
      var i := 0;
      while i < entries.Length
        invariant 0 <= i <= entries.Length && Valid()
        invariant entries[..] == ExpireUpTo(before, now, i)
      {
        assert entries[i] == ExpireUpTo(before, now, i)[i];
        if entries[i].typ != 0 && entries[i].expires != 0 && !(entries[i].expires > now) {
          RemoveNameOf(i);
        }
        i := i + 1;
      }
      assert forall j :: 0 <= j < entries.Length ==> entries[j] == entries[..][j];
    }
  }
}
