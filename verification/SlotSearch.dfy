/** The search for an open slot that `ban_list_add` and `ban_event_list_add` share: probe
from a roving cursor, wrap at the end, give up on coming back to the start.
*/
module SlotSearch {

  /** One pass through the loop body. */
  datatype Probe = Open(slot: nat) | Full | Next(cursor: nat)

  function ProbeOnce(used: seq<bool>, start: nat, cursor: nat, seen: bool): Probe
    requires |used| > 0
  {
    var c := if cursor >= |used| then 0 else cursor;
    if !used[c] then Open(c)
    else if c == start && seen then Full
    else Next(c + 1)
  }

  /** The outcome of the n-th probe, counted from zero. A search that has ended stays so. */
  function Probed(used: seq<bool>, start: nat, n: nat): Probe
    requires |used| > 0
  {
    if n == 0 then ProbeOnce(used, start, start, false)
    else
      match Probed(used, start, n - 1)
      case Next(c) => ProbeOnce(used, start, c, true)
      case done => done
  }

  /** The k-th slot in cyclic order from the start. */
  function Slot(size: nat, start: nat, k: nat): nat
    requires k <= size && size > 0
  {
    var first := if start >= size then 0 else start;
    if first + k < size then first + k else first + k - size
  }

  ghost predicate AllUsed(used: seq<bool>) { forall i :: 0 <= i < |used| ==> used[i] }

  ghost predicate UsedBefore(used: seq<bool>, start: nat, k: nat)
    requires k <= |used| && |used| > 0
  {
    forall j: nat :: j < k ==> used[Slot(|used|, start, j)]
  }

  /** k is the distance to the nearest open slot. */
  ghost predicate FirstOpen(used: seq<bool>, start: nat, k: nat) {
    k < |used| && !used[Slot(|used|, start, k)] && UsedBefore(used, start, k)
  }

  /** While only used slots have been met, the search goes on; wrapping shows up one probe
  late, so only the slot after the cursor is fixed. */
  lemma {:induction false} StillSearching(used: seq<bool>, start: nat, n: nat)
    requires |used| > 0 && n < |used| && UsedBefore(used, start, n + 1)
    ensures Probed(used, start, n) == Next(Slot(|used|, start, n) + 1)
  {
    if n > 0 {
      StillSearching(used, start, n - 1);
    }
    assert used[Slot(|used|, start, n)];
  }

  /** With an open slot the search takes the first one in cyclic order and no other. */
  lemma {:induction false} FindsFirstOpen(used: seq<bool>, start: nat, k: nat)
    requires |used| > 0 && FirstOpen(used, start, k)
    ensures Probed(used, start, k) == Open(Slot(|used|, start, k))
    ensures forall j: nat :: j < k ==> Probed(used, start, j).Next?
  {
    forall j: nat | j < k
      ensures Probed(used, start, j).Next?
    {
      StillSearching(used, start, j);
    }
    if k > 0 {
      StillSearching(used, start, k - 1);
    }
  }

  /** Without one, it gives up on its (size + 1)-th probe if the cursor started inside. */
  lemma {:induction false} GivesUpWhenFull(used: seq<bool>, start: nat)
    requires |used| > 0 && AllUsed(used) && start < |used|
    ensures Probed(used, start, |used|) == Full
    ensures forall j: nat :: j < |used| ==> Probed(used, start, j).Next?
  {
    forall j: nat | j < |used|
      ensures Probed(used, start, j).Next?
    {
      StillSearching(used, start, j);
    }
    StillSearching(used, start, |used| - 1);
  }

  /** A cursor that starts at the end of a full table never comes back to its start: the
  cursor is reset to zero before it is compared. */
  lemma {:induction false} NeverEndsFromTheEnd(used: seq<bool>, start: nat, n: nat)
    requires |used| > 0 && AllUsed(used) && start >= |used|
    ensures Probed(used, start, n).Next?
  {
    if n > 0 {
      NeverEndsFromTheEnd(used, start, n - 1);
    }
  }

  /** The search ends exactly when a slot is open or the cursor starts inside the table. */
  lemma SearchEndsIff(used: seq<bool>, start: nat)
    requires |used| > 0
    ensures (exists n: nat :: !Probed(used, start, n).Next?) <==> (!AllUsed(used) || start < |used|)
  {
    if AllUsed(used) {
      if start < |used| {
        GivesUpWhenFull(used, start);
      } else {
        forall n: nat
          ensures Probed(used, start, n).Next?
        {
          NeverEndsFromTheEnd(used, start, n);
        }
      }
    } else {
      var k := NearestOpen(used, start);
      FindsFirstOpen(used, start, k);
      assert !Probed(used, start, k).Next?;
    }
  }

  lemma NearestOpen(used: seq<bool>, start: nat) returns (k: nat)
    requires |used| > 0 && !AllUsed(used)
    ensures FirstOpen(used, start, k)
  {
    k := 0;
    while k < |used| && used[Slot(|used|, start, k)]
      invariant k <= |used| && UsedBefore(used, start, k)
    {
      k := k + 1;
    }
    if k == |used| {
      EverySlotMet(used, start);
    }
  }

  lemma EverySlotMet(used: seq<bool>, start: nat)
    requires |used| > 0 && UsedBefore(used, start, |used|)
    ensures AllUsed(used)
  {
    var first := if start >= |used| then 0 else start;
    forall i | 0 <= i < |used|
      ensures used[i]
    {
      var j := if i >= first then i - first else i - first + |used|;
      assert Slot(|used|, start, j) == i;
    }
  }

  /** The loop itself. `open` reports success; the cursor is left at the slot found, or
  back at its start. */
  method FindSlot(used: seq<bool>, start: nat) returns (open: bool, cursor: nat)
    requires |used| > 0 && (!AllUsed(used) || start < |used|)
    ensures open <==> !AllUsed(used)
    ensures open ==> exists k: nat :: FirstOpen(used, start, k) && cursor == Slot(|used|, start, k)
    ensures !open ==> cursor == start
  {
    cursor := start;
    var seen := false;
    ghost var k: nat := 0;
    while true
      invariant k <= |used| && UsedBefore(used, start, k) && seen == (k > 0)
      invariant cursor == if k == 0 then start else Slot(|used|, start, k - 1) + 1
      decreases |used| - k
    {
      if cursor >= |used| {
        cursor := 0;
      }
      if k == |used| {
        EverySlotMet(used, start);
      }
      if !used[cursor] {
        assert FirstOpen(used, start, k);
        return true, cursor;
      }
      if cursor == start && seen {
        BackAtStart(used, start, k);
        return false, cursor;
      }
      cursor := cursor + 1;
      seen := true;
      k := k + 1;
    }
  }

  lemma BackAtStart(used: seq<bool>, start: nat, k: nat)
    requires |used| > 0 && 0 < k <= |used| && UsedBefore(used, start, k)
    requires Slot(|used|, start, k) == start
    ensures AllUsed(used)
  {
    EverySlotMet(used, start);
  }

  // ---------------------------------------------------------------------------
  // Counting

  function CountUsed(used: seq<bool>): nat {
    if used == [] then 0 else CountUsed(used[..|used| - 1]) + if used[|used| - 1] then 1 else 0
  }

  lemma {:induction false} CountOfUpdate(used: seq<bool>, i: nat, b: bool)
    requires i < |used|
    ensures CountUsed(used[i := b]) == CountUsed(used) - (if used[i] then 1 else 0) + (if b then 1 else 0)
  {
    var n := |used| - 1;
    if i < n {
      CountOfUpdate(used[..n], i, b);
      assert used[i := b][..n] == used[..n][i := b];
    } else {
      assert used[i := b][..n] == used[..n];
    }
  }

  lemma {:induction false} CountZeroIff(used: seq<bool>)
    ensures CountUsed(used) == 0 <==> forall i :: 0 <= i < |used| ==> !used[i]
  {
    if used != [] {
      CountZeroIff(used[..|used| - 1]);
    }
  }

  lemma {:induction false} CountFullIff(used: seq<bool>)
    ensures CountUsed(used) <= |used|
    ensures CountUsed(used) == |used| <==> AllUsed(used)
  {
    if |used| > 0 {
      CountFullIff(used[..|used| - 1]);
      assert forall i :: 0 <= i < |used| - 1 ==> used[..|used| - 1][i] == used[i];
    }
  }
}
