/** The forensic log buffer: a ring of the latest messages, dumped on demand.

The reference is the full history of messages with a mark below which they are gone.
*/
module ForensicRing {

  import opened Optional

  datatype Message = Message(logType: nat, level: int, text: string)

  datatype Log = Log(history: seq<Message>, low: nat)

  ghost predicate Fits(s: Log, n: nat) { s.low <= |s.history| <= s.low + n }

  function Max(a: int, b: int): int { if a < b then b else a }

  function Added(s: Log, m: Message, n: nat): Log {
    Log(s.history + [m], Max(s.low, |s.history| + 1 - n))
  }

  /** A dump takes all that is held but the newest. */
  function Dumped(s: Log): Log { s.(low := Max(s.low, |s.history| - 1)) }

  // ---------------------------------------------------------------------------
  // The ring

  /** The slot k places behind the index. */
  function Behind(idx: nat, k: nat, n: nat): nat
    requires idx < n && k <= n
  {
    if k <= idx then idx - k else idx - k + n
  }

  /** At distance k behind the index stands the k-th newest message, or nothing once that
  one is gone. */
  ghost predicate Represents(slots: seq<Option<Message>>, idx: nat, s: Log) {
    && idx < |slots| && Fits(s, |slots|)
    && forall k :: 1 <= k <= |slots| ==>
         slots[Behind(idx, k, |slots|)] == if k <= |s.history| - s.low then Some(s.history[|s.history| - k]) else None
  }

  lemma RepresentsAdded(slots: seq<Option<Message>>, idx: nat, s: Log, m: Message)
    requires Represents(slots, idx, s)
    ensures Represents(slots[idx := Some(m)], if idx + 1 == |slots| then 0 else idx + 1, Added(s, m, |slots|))
  {
    var n := |slots|;
    var t, next := Added(s, m, n), if idx + 1 == n then 0 else idx + 1;
    forall k | 1 <= k <= n
      ensures slots[idx := Some(m)][Behind(next, k, n)]
              == if k <= |t.history| - t.low then Some(t.history[|t.history| - k]) else None
    {
      if k > 1 {
        assert Behind(next, k, n) == Behind(idx, k - 1, n);
      }
    }
  }

  /** The dump walk after k of the n - 1 slots from the index on: they are clear, and what
  they held has been written, oldest first. */
  ghost predicate Walked(before: seq<Option<Message>>, slots: seq<Option<Message>>, idx: nat, s: Log, k: nat, out: seq<Message>) {
    var n := |before|;
    && Represents(before, idx, s) && |slots| == n && k < n
    && (forall d :: 1 <= d <= n ==>
          slots[Behind(idx, d, n)] == if d > n - k then None else before[Behind(idx, d, n)])
    && out == s.history[s.low..Max(s.low, |s.history| - (n - k))]
  }

  lemma WalkOne(before: seq<Option<Message>>, slots: seq<Option<Message>>, idx: nat, s: Log, k: nat, out: seq<Message>)
    requires Walked(before, slots, idx, s, k, out) && k + 1 < |before|
    ensures var i := Behind(idx, |before| - k, |before|);
            Walked(before, slots[i := None], idx, s, k + 1, if slots[i].Some? then out + [slots[i].value] else out)
  {
    var n := |before|;
    var i := Behind(idx, n - k, n);
    assert slots[i] == before[i];
    forall d | 1 <= d <= n
      ensures slots[i := None][Behind(idx, d, n)] == if d > n - k - 1 then None else before[Behind(idx, d, n)]
    {
      if d != n - k {
        assert Behind(idx, d, n) != i;
      }
    }
  }

  lemma WalkDone(before: seq<Option<Message>>, slots: seq<Option<Message>>, idx: nat, s: Log, out: seq<Message>)
    requires |before| > 0 && Walked(before, slots, idx, s, |before| - 1, out)
    ensures Represents(slots, idx, Dumped(s)) && out == s.history[s.low..Dumped(s).low]
  {
  }

  /** The slot k places on from the index. */
  function Forward(idx: nat, k: nat, n: nat): nat
    requires idx < n && k <= n
  {
    if idx + k < n then idx + k else idx + k - n
  }

  /** The slots and the output after the dump has walked over k slots. */
  function Swept(slots: seq<Option<Message>>, idx: nat, k: nat): (r: (seq<Option<Message>>, seq<Message>))
    requires idx < |slots| && k <= |slots|
    ensures |r.0| == |slots|
  {
    if k == 0 then (slots, [])
    else
      var (t, out) := Swept(slots, idx, k - 1);
      var i := Forward(idx, k - 1, |slots|);
      (t[i := None], if t[i].Some? then out + [t[i].value] else out)
  }

  lemma {:induction false} SweptIsWalked(slots: seq<Option<Message>>, idx: nat, s: Log, k: nat)
    requires Represents(slots, idx, s) && k < |slots|
    ensures Walked(slots, Swept(slots, idx, k).0, idx, s, k, Swept(slots, idx, k).1)
  {
    if k > 0 {
      SweptIsWalked(slots, idx, s, k - 1);
      assert Forward(idx, k - 1, |slots|) == Behind(idx, |slots| - (k - 1), |slots|);
      WalkOne(slots, Swept(slots, idx, k - 1).0, idx, s, k - 1, Swept(slots, idx, k - 1).1);
    }
  }

  class Ring {
    const slots: array<Option<Message>>
    var idx: nat
    ghost var log: Log

    ghost predicate Valid()
      reads this, slots
    {
      Represents(slots[..], idx, log)
    }

    constructor (n: nat)
      requires n > 0
      ensures Valid() && fresh(slots) && slots.Length == n && log == Log([], 0)
    {
      slots := new Option<Message>[n](_ => None);
      idx, log := 0, Log([], 0);
    }

    /** `forensic_add_msg` */
    method Add(m: Message)
      requires Valid()
      modifies this, slots
      ensures Valid() && log == Added(old(log), m, slots.Length)
    {
      RepresentsAdded(slots[..], idx, log, m);
      ghost var was := slots[..];
      slots[idx] := Some(m);
      assert slots[..] == was[idx := Some(m)];
      log := Added(log, m, slots.Length);
      idx := idx + 1;
      if idx == slots.Length {
        idx := 0;
      }
    }

    /** Write out and clear one slot. */
    method Take(i: nat, out: seq<Message>) returns (more: seq<Message>)
      requires i < slots.Length
      modifies slots
      ensures slots[..] == old(slots[..])[i := None]
      ensures more == if old(slots[i]).Some? then out + [old(slots[i]).value] else out
    {
      more := out;
      if slots[i].Some? {
        more := out + [slots[i].value];
        slots[i] := None;
      }
    }

    /** The walk of `forensic_write_msgs`: from the index around to the slot before it, which
    is not visited. */
    method Walk() returns (out: seq<Message>)
      requires idx < slots.Length
      modifies slots
      ensures (slots[..], out) == Swept(old(slots[..]), idx, slots.Length - 1)
    {
      var n := slots.Length;
      var end := if idx == 0 then n - 1 else idx - 1;
      var i := idx;
      out := [];
      ghost var before, k: nat := slots[..], 0;
      while i != end
        invariant k < n && i == Forward(idx, k, n)
        invariant (slots[..], out) == Swept(before, idx, k)
        decreases n - k
      {
        out := Take(i, out);
        i := i + 1;
        if i == n {
          i := 0;
        }
        k := k + 1;
      }
    }

    /** `forensic_write_msgs` */
    method Dump() returns (out: seq<Message>)
      requires Valid()
      modifies this`log, slots
      ensures Valid() && log == Dumped(old(log))
      ensures out == old(log).history[old(log).low..log.low]
    {
      SweptIsWalked(slots[..], idx, log, slots.Length - 1);
      ghost var before := slots[..];
      out := Walk();
      WalkDone(before, slots[..], idx, log, out);
      log := Dumped(log);
    }
  }

  // ---------------------------------------------------------------------------
  // Runs

  datatype Op = AddOp(m: Message) | DumpOp

  /** A message that left the ring: its place in the history, itself, and whether it was
  written to the log or overwritten. */
  datatype Fate = Fate(at: nat, m: Message, written: bool)

  function Step(s: Log, op: Op, n: nat): Log {
    match op
    case AddOp(m) => Added(s, m, n)
    case DumpOp => Dumped(s)
  }

  function After(s: Log, ops: seq<Op>, n: nat): Log {
    if |ops| == 0 then s else Step(After(s, ops[..|ops| - 1], n), ops[|ops| - 1], n)
  }

  /** The messages a step takes out of the ring. */
  function Leaving(s: Log, op: Op, n: nat): seq<Fate>
    requires s.low <= |s.history|
  {
    var low := Step(s, op, n).low;
    var top := if low <= |s.history| then low else |s.history|;
    seq(top - s.low, i requires 0 <= i < top - s.low => Fate(s.low + i, s.history[s.low + i], op.DumpOp?))
  }

  lemma LeavingInOrder(s: Log, op: Op, n: nat)
    requires n > 0 && Fits(s, n)
    ensures var out := Leaving(s, op, n);
            && |out| == Step(s, op, n).low - s.low && Fits(Step(s, op, n), n)
            && (forall i :: 0 <= i < |out| ==> out[i] == Fate(s.low + i, s.history[s.low + i], op.DumpOp?))
            && (op.AddOp? ==> |out| == if |s.history| - s.low == n then 1 else 0)
  {
  }

  lemma {:induction false} RunFits(ops: seq<Op>, n: nat)
    requires n > 0
    ensures Fits(After(Log([], 0), ops, n), n)
  {
    if |ops| > 0 {
      RunFits(ops[..|ops| - 1], n);
    }
  }

  function Gone(ops: seq<Op>, n: nat): seq<Fate>
    requires n > 0
  {
    if |ops| == 0 then []
    else
      var past := ops[..|ops| - 1];
      RunFits(past, n);
      Gone(past, n) + Leaving(After(Log([], 0), past, n), ops[|ops| - 1], n)
  }

  /** The messages as they were added. */
  function Arrivals(ops: seq<Op>): seq<Message> {
    if |ops| == 0 then []
    else Arrivals(ops[..|ops| - 1]) + if ops[|ops| - 1].AddOp? then [ops[|ops| - 1].m] else []
  }

  /** These are the first messages to have arrived, each once and in order. */
  ghost predicate InOrder(gone: seq<Fate>, arrived: seq<Message>) {
    |gone| <= |arrived| && forall i :: 0 <= i < |gone| ==> gone[i].at == i && gone[i].m == arrived[i]
  }

  lemma LeavingKeepsOrder(gone: seq<Fate>, s: Log, op: Op, n: nat)
    requires n > 0 && Fits(s, n) && InOrder(gone, s.history) && |gone| == s.low
    ensures InOrder(gone + Leaving(s, op, n), Step(s, op, n).history)
    ensures |gone + Leaving(s, op, n)| == Step(s, op, n).low
  {
    LeavingInOrder(s, op, n);
  }

  /** In every run the messages that left the ring are the first ones to have arrived, each
  exactly once and in order, either written or overwritten, and the rest are held. */
  lemma {:induction false} EveryMessageAccountedFor(ops: seq<Op>, n: nat)
    requires n > 0
    ensures After(Log([], 0), ops, n).history == Arrivals(ops)
    ensures InOrder(Gone(ops, n), Arrivals(ops)) && |Gone(ops, n)| == After(Log([], 0), ops, n).low
  {
    if |ops| > 0 {
      var past, op := ops[..|ops| - 1], ops[|ops| - 1];
      EveryMessageAccountedFor(past, n);
      RunFits(past, n);
      LeavingKeepsOrder(Gone(past, n), After(Log([], 0), past, n), op, n);
    }
  }

  /** A message is overwritten only by the n-th to come after it. */
  lemma {:induction false} OverwrittenByNthNewer(ops: seq<Op>, n: nat, i: nat)
    requires n > 0 && i < |Gone(ops, n)| && !Gone(ops, n)[i].written
    ensures exists p: nat :: p < |ops| && ops[p].AddOp? && |Arrivals(ops[..p])| == Gone(ops, n)[i].at + n
  {
    var last := |ops| - 1;
    var past, op := ops[..last], ops[last];
    var was := After(Log([], 0), past, n);
    RunFits(past, n);
    assert Gone(ops, n) == Gone(past, n) + Leaving(was, op, n);
    if i < |Gone(past, n)| {
      OverwrittenByNthNewer(past, n, i);
      var p: nat :| p < |past| && past[p].AddOp? && |Arrivals(past[..p])| == Gone(past, n)[i].at + n;
      assert past[..p] == ops[..p] && past[p] == ops[p];
    } else {
      EveryMessageAccountedFor(past, n);
      OverwrittenNow(was, op, n, i - |Gone(past, n)|);
    }
  }

  lemma OverwrittenNow(s: Log, op: Op, n: nat, j: nat)
    requires n > 0 && Fits(s, n) && j < |Leaving(s, op, n)| && !Leaving(s, op, n)[j].written
    ensures op.AddOp? && |s.history| == Leaving(s, op, n)[j].at + n
  {
    LeavingInOrder(s, op, n);
  }

  /** The newest message is always held back: no dump writes it until another follows. */
  lemma {:induction false} NewestIsHeldBack(ops: seq<Op>, n: nat)
    requires n > 0 && |Arrivals(ops)| > 0
    ensures |Gone(ops, n)| < |Arrivals(ops)|
  {
    EveryMessageAccountedFor(ops, n);
    var past := ops[..|ops| - 1];
    EveryMessageAccountedFor(past, n);
    if |Arrivals(past)| > 0 {
      NewestIsHeldBack(past, n);
    }
  }
}
