/** Which command each tally write belongs to, when the session may end at any point: between
handlers, and inside a handler between the steps of its tally writes.

A tally write takes the table lock, stores, gives the lock up, and only then clears the flag
that tells the exit event of a pending update. The lock calls handle signals while they
retry, so the exit event can come in between.
*/
module ChargeLedger {
  import opened Optional
  import opened QuotaTypes
  import opened SessionQuota

  /** The next thing a tally write does. */
  datatype Stage = Locking | Storing | Unlocking | Clearing

  /** `charge` is the first write of a POST handler, `undo` the second one if there is one. */
  datatype Phase =
    | Boundary
    | Running(verb: Verb, env: Env, admitted: bool)
    | Writing(verb: Verb, env: Env, admitted: bool, ok: bool, charge: Increment, undo: Option<Increment>,
              second: bool, stage: Stage)
    | Ended

  /** One tally write; `undo` marks the second write of a handler. */
  datatype Entry = Entry(cmd: nat, inc: Increment, undo: bool)

  /** How a command ended. A session that ended in the middle of it had or had not stored its
  charge, which is that of a success or a failure, and had or had not cleared the flag. */
  datatype End = Completed | Failed | CutOff(total: real, stored: bool, cleared: bool, ok: bool)

  datatype Past = Past(verb: Verb, env: Env, admitted: bool, end: End)

  datatype Trace = Trace(sess: Sess, phase: Phase, ledger: seq<Entry>, past: seq<Past>)

  datatype Event = Begin(verb: Verb, env: Env) | Finish(ok: bool) | Proceed | Quit(total: real)

  /** The number of the command under way, counted from one. */
  function Current(tr: Trace): nat { |tr.past| + 1 }

  predicate Allowed(tr: Trace, ev: Event) {
    match ev
    case Begin(_, _) => tr.phase.Boundary?
    case Finish(ok) => tr.phase.Running? && (ok ==> tr.phase.admitted)
    case Proceed => tr.phase.Writing?
    case Quit(_) => !tr.phase.Ended?
  }

  /** What a handler does after its last write. */
  function Tidied(s: Sess, v: Verb): Sess { if v == Dele then s.(disk := 0.0) else s }

  /** The first write of the handler has been stored. */
  predicate Stored(ph: Phase)
    requires ph.Writing?
  {
    ph.second || ph.stage.Unlocking? || ph.stage.Clearing?
  }

  function HowEnded(ph: Phase, total: real): End {
    if ph.Writing? then CutOff(total, Stored(ph), ph.second, ph.ok) else CutOff(total, false, false, false)
  }

  function ProceedStep(l: Limit, tr: Trace): Trace
    requires tr.phase.Writing?
  {
    var ph := tr.phase;
    match ph.stage
    case Locking => tr.(phase := ph.(stage := Storing))
    case Storing =>
      var inc := if ph.second && ph.undo.Some? then ph.undo.value else ph.charge;
      Trace(tr.sess.(tally := Charge(l, tr.sess.tally, inc)), ph.(stage := Unlocking),
            tr.ledger + [Entry(Current(tr), inc, ph.second)], tr.past)
    case Unlocking => tr.(phase := ph.(stage := Clearing))
    case Clearing =>
      var sess := tr.sess.(pending := NoUpdate);
      if ph.undo.Some? && !ph.second then Trace(sess, ph.(second := true, stage := Locking), tr.ledger, tr.past)
      else
        Trace(Tidied(sess, ph.verb), Boundary, tr.ledger,
              tr.past + [Past(ph.verb, ph.env, ph.admitted, if ph.ok then Completed else Failed)])
  }

  function Step(l: Limit, tr: Trace, ev: Event): Trace
    requires Allowed(tr, ev)
  {
    match ev
    case Begin(v, e) => tr.(sess := Pre(l, tr.sess, v, e), phase := Running(v, e, Admitted(l, tr.sess, v, e)))
    case Finish(ok) =>
      var ph := tr.phase;
      var ws := Writes(l, tr.sess, ph.verb, ok, ph.env);
      if |ws| == 0 then
        Trace(Post(l, tr.sess, ph.verb, ok, ph.env), Boundary, tr.ledger,
              tr.past + [Past(ph.verb, ph.env, ph.admitted, if ok then Completed else Failed)])
      else
        tr.(phase := Writing(ph.verb, ph.env, ph.admitted, ok, ws[0], if |ws| > 1 then Some(ws[1]) else None, false, Locking))
    case Proceed => ProceedStep(l, tr)
    case Quit(total) =>
      var ws := ExitWrites(tr.sess, total);
      Trace(Exit(l, tr.sess, total), Ended,
            if |ws| > 0 then tr.ledger + [Entry(Current(tr), ws[0], false)] else tr.ledger,
            if tr.phase.Boundary? then tr.past
            else tr.past + [Past(tr.phase.verb, tr.phase.env, tr.phase.admitted, HowEnded(tr.phase, total))])
  }

  predicate Runs(l: Limit, tr: Trace, evs: seq<Event>)
    decreases evs
  {
    evs == [] || (Allowed(tr, evs[0]) && Runs(l, Step(l, tr, evs[0]), evs[1..]))
  }

  function After(l: Limit, tr: Trace, evs: seq<Event>): Trace
    requires Runs(l, tr, evs)
    decreases evs
  {
    if evs == [] then tr else After(l, Step(l, tr, evs[0]), evs[1..])
  }

  function Fresh(s: Sess): Trace { Trace(s, Boundary, [], []) }

  // ---------------------------------------------------------------------------
  // The ledger

  /** The charges made for command c, in order. */
  function ChargesOf(ledger: seq<Entry>, c: nat): seq<Increment> {
    if |ledger| == 0 then []
    else
      var e := ledger[|ledger| - 1];
      ChargesOf(ledger[..|ledger| - 1], c) + if e.cmd == c && !e.undo then [e.inc] else []
  }

  lemma {:induction false} ChargesGrow(ledger: seq<Entry>, e: Entry, c: nat)
    ensures ChargesOf(ledger + [e], c) == ChargesOf(ledger, c) + if e.cmd == c && !e.undo then [e.inc] else []
  {
    assert (ledger + [e])[..|ledger|] == ledger;
  }

  function Increments(ledger: seq<Entry>): seq<Increment> {
    seq(|ledger|, i requires 0 <= i < |ledger| => ledger[i].inc)
  }

  lemma {:induction false} TallyGrows(l: Limit, init: Tally, ledger: seq<Entry>, e: Entry)
    ensures ChargeAll(l, init, Increments(ledger + [e])) == Charge(l, ChargeAll(l, init, Increments(ledger)), e.inc)
  {
    assert Increments(ledger + [e]) == Increments(ledger) + [e.inc];
    ChargeAllConcat(l, init, Increments(ledger), [e.inc]);
    ChargeAll1(l, ChargeAll(l, init, Increments(ledger)), e.inc);
  }

  /** A transfer on a path that counts; a STOR whose file was deleted again is none. */
  predicate Counted(v: Verb, e: Env) { !e.ignored && (v == Retr || v == Appe || (v == Stor && !e.skip)) }

  /** How much more of the disk the file takes after the transfer: nothing if it is gone, and
  the bytes moved if it cannot be examined any more. */
  function Grown(e: Env): real {
    var was := if e.before.Size? then e.before.n else 0.0;
    if e.after.Size? then e.after.n - was else if e.after.Absent? then 0.0 else e.total
  }

  /** The charge for a completed transfer: the file's growth on disk, all bytes moved, and one
  file (a new one for the upload count, any for the transfer count), none for APPE. */
  function WholeCharge(v: Verb, e: Env): Increment {
    if v == Retr then Increment(0.0, e.total, e.total, 0, 1, 1)
    else
      Increment(Grown(e), 0.0, e.total, if v == Stor && !(e.before.Size? && e.before.n != 0.0) then 1 else 0, 0,
                if v == Stor then 1 else 0)
  }

  /** The charge for a failed one: the same bytes and no file. A STOR that moved nothing is not
  charged for the growth of its file. */
  function FailedCharge(v: Verb, e: Env): Increment {
    if v == Retr then Increment(0.0, e.total, e.total, 0, 0, 0)
    else if v == Stor && e.total <= 0.0 then Increment(e.total, 0.0, e.total, 0, 0, 0)
    else Increment(Grown(e), 0.0, e.total, 0, 0, 0)
  }

  const NOTHING := Increment(0.0, 0.0, 0.0, 0, 0, 0)

  /** What the handler of an admitted command charges, as the command succeeds or fails. A
  failed STOR that moved and stored nothing may go without a charge. */
  predicate Due(v: Verb, ok: bool, e: Env, charges: seq<Increment>) {
    if Counted(v, e) && ok then charges == [WholeCharge(v, e)]
    else if Counted(v, e) then
      charges == [FailedCharge(v, e)] || (v == Stor && FailedCharge(v, e) == NOTHING && charges == [])
    else if v == Dele && ok && Found(e) then charges == [Increment(-e.before.n, 0.0, 0.0, -1, 0, 0)]
    else charges == []
  }

  /** A DELE of a file that counts. */
  predicate Found(e: Env) { !e.ignored && e.before.Size? }

  /** The commands whose PRE handler sets the flag for the exit event. */
  predicate Flags(v: Verb, e: Env, admitted: bool) { admitted && !e.ignored && (v == Dele ==> Found(e)) }

  /** The charge of the exit event for a command under way: a download, or else an upload. */
  function ExitCharge(v: Verb, total: real): Increment {
    if v == Retr then Increment(0.0, total, total, 0, 1, 1) else Increment(total, 0.0, total, 1, 0, 1)
  }

  /** How the charges of a command that is over come about. */
  ghost predicate Explained(p: Past, charges: seq<Increment>) {
    match p.end
    case Completed => p.admitted && Due(p.verb, true, p.env, charges)
    case Failed => |charges| <= 1 && (p.admitted ==> Due(p.verb, false, p.env, charges))
    case CutOff(total, stored, cleared, ok) =>
      var own, exit := if stored then 1 else 0, Flags(p.verb, p.env, p.admitted) && !cleared;
      && |charges| == own + (if exit then 1 else 0)
      && (stored && p.admitted ==> Due(p.verb, ok, p.env, charges[..own]))
      && (exit ==> charges[own] == ExitCharge(p.verb, total))
      && (cleared ==> stored && (p.verb == Stor || p.verb == Appe))
  }

  ghost predicate Accounted(ledger: seq<Entry>, c: nat, p: Past) { Explained(p, ChargesOf(ledger, c)) }

  ghost predicate AllAccounted(ledger: seq<Entry>, past: seq<Past>) {
    forall i :: 0 <= i < |past| ==> Accounted(ledger, i + 1, past[i])
  }

  ghost predicate UpTo(ledger: seq<Entry>, c: nat) { forall i :: 0 <= i < |ledger| ==> ledger[i].cmd <= c }

  ghost predicate TakesBack(c: Increment, u: Increment) {
    u.bytesIn == -c.bytesIn && u.bytesXfer == -c.bytesXfer && u.bytesOut == 0.0 == c.bytesOut
  }

  /** A second write follows the charge it takes back. */
  ghost predicate UndoFollowsCharge(ledger: seq<Entry>) {
    forall j :: 0 <= j < |ledger| && ledger[j].undo ==>
      && j > 0 && !ledger[j - 1].undo && ledger[j - 1].cmd == ledger[j].cmd
      && TakesBack(ledger[j - 1].inc, ledger[j].inc)
  }

  lemma {:induction false} NoChargesBeyond(ledger: seq<Entry>, c: nat)
    requires c > 0 && UpTo(ledger, c - 1)
    ensures ChargesOf(ledger, c) == []
  {
    if |ledger| > 0 {
      NoChargesBeyond(ledger[..|ledger| - 1], c);
    }
  }

  lemma PastUntouched(ledger: seq<Entry>, e: Entry, past: seq<Past>)
    requires AllAccounted(ledger, past) && e.cmd > |past|
    ensures AllAccounted(ledger + [e], past)
  {
    forall i | 0 <= i < |past|
      ensures Accounted(ledger + [e], i + 1, past[i])
    {
      ChargesGrow(ledger, e, i + 1);
      assert Accounted(ledger, i + 1, past[i]);
    }
  }

  // ---------------------------------------------------------------------------
  // The invariant

  function FlagOf(v: Verb, e: Env, admitted: bool): Pending {
    if !Flags(v, e, admitted) then NoUpdate else if v == Retr then ReadUpdate else WriteUpdate
  }

  /** The flag while a command runs, the size its PRE handler has cached, and what a DELE found. */
  ghost predicate Flagged(v: Verb, e: Env, admitted: bool, s: Sess) {
    && s.pending == FlagOf(v, e, admitted)
    && (Flags(v, e, admitted) && v != Retr ==> s.disk == StatSize(e.before))
    && (v == Dele ==> (s.dele <==> Found(e)))
  }

  ghost predicate LastIs(ledger: seq<Entry>, e: Entry) { |ledger| > 0 && ledger[|ledger| - 1] == e }

  /** A handler has its writes ready, with the session as its PRE handler left it. */
  ghost predicate Ready(ph: Phase, s: Sess)
    requires ph.Writing?
  {
    && (ph.ok ==> ph.admitted) && (ph.admitted ==> Due(ph.verb, ph.ok, ph.env, [ph.charge]))
    && (ph.undo.Some? ==> TakesBack(ph.charge, ph.undo.value) && (ph.verb == Stor || ph.verb == Appe))
    && (if ph.second then ph.undo.Some? && s.pending == NoUpdate else Flagged(ph.verb, ph.env, ph.admitted, s))
  }

  /** What the ledger has of the handler's writes. */
  ghost predicate Recorded(ph: Phase, ledger: seq<Entry>, c: nat)
    requires ph.Writing? && c > 0
  {
    && UpTo(ledger, if Stored(ph) then c else c - 1)
    && (Stored(ph) ==> ChargesOf(ledger, c) == [ph.charge])
    && (Stored(ph) && !(ph.second && (ph.stage.Unlocking? || ph.stage.Clearing?)) ==> LastIs(ledger, Entry(c, ph.charge, false)))
  }

  ghost predicate Live(tr: Trace) {
    match tr.phase
    case Boundary => tr.sess.pending == NoUpdate && UpTo(tr.ledger, |tr.past|)
    case Ended => tr.sess.pending == NoUpdate
    case Running(v, e, admitted) => Flagged(v, e, admitted, tr.sess) && UpTo(tr.ledger, |tr.past|)
    case Writing(_, _, _, _, _, _, _, _) => Ready(tr.phase, tr.sess) && Recorded(tr.phase, tr.ledger, Current(tr))
  }

  /** The tally is the initial one charged with the ledger, and every undo has its charge. */
  ghost predicate Booked(l: Limit, init: Tally, tally: Tally, ledger: seq<Entry>) {
    && tally == ChargeAll(l, init, Increments(ledger))
    && UndoFollowsCharge(ledger)
    && (forall i :: 0 <= i < |ledger| ==> ledger[i].cmd > 0)
  }

  ghost predicate NoneCutOff(past: seq<Past>) { forall i :: 0 <= i < |past| ==> !past[i].end.CutOff? }

  ghost predicate Inv(l: Limit, init: Tally, tr: Trace) {
    && Booked(l, init, tr.sess.tally, tr.ledger) && AllAccounted(tr.ledger, tr.past) && Live(tr)
    && (!tr.phase.Ended? ==> NoneCutOff(tr.past))
  }

  // ---------------------------------------------------------------------------
  // Begin and Finish

  lemma PreFlags(l: Limit, s: Sess, v: Verb, e: Env)
    requires s.pending == NoUpdate
    ensures Flagged(v, e, Admitted(l, s, v, e), Pre(l, s, v, e)) && Pre(l, s, v, e).tally == s.tally
  {
  }

  lemma BeginStep(l: Limit, init: Tally, tr: Trace, v: Verb, e: Env)
    requires Inv(l, init, tr) && tr.phase.Boundary?
    ensures Inv(l, init, Step(l, tr, Begin(v, e)))
  {
    PreFlags(l, tr.sess, v, e);
  }

  lemma UploadWritesTakeBack(l: Limit, t: Tally, c: Increment, removable: bool)
    requires c.bytesOut == 0.0
    ensures forall ws :: ws == UploadWrites(l, t, c, removable) || ws == FailedStoreWrites(l, t, c) ==>
              |ws| <= 2 && (|ws| == 2 ==> TakesBack(ws[0], ws[1]))
  {
  }

  lemma SecondWriteTakesBack(l: Limit, s: Sess, v: Verb, ok: bool, e: Env)
    ensures var ws := Writes(l, s, v, ok, e);
            |ws| <= 2 && (|ws| == 2 ==> TakesBack(ws[0], ws[1]) && (v == Stor || v == Appe))
  {
    if v == Stor || v == Appe {
      UploadWritesTakeBack(l, s.tally, UploadCharge(s, v, ok, e), l.kind == Hard && e.unlinked);
    }
  }

  /** The first write of a POST or POST_ERR handler is what is due. */
  lemma FirstWriteIsDue(l: Limit, s: Sess, v: Verb, ok: bool, e: Env)
    requires Flagged(v, e, true, s)
    ensures var ws := Writes(l, s, v, ok, e); Due(v, ok, e, if |ws| > 0 then [ws[0]] else [])
  {
  }

  lemma NothingToWrite(l: Limit, s: Sess, v: Verb, ok: bool, e: Env)
    requires Writes(l, s, v, ok, e) == [] && (s.pending != NoUpdate ==> !e.ignored && (v == Dele ==> s.dele))
    ensures Post(l, s, v, ok, e).pending == NoUpdate && Post(l, s, v, ok, e).tally == s.tally
  {
  }

  lemma PastGrows(ledger: seq<Entry>, past: seq<Past>, p: Past)
    requires AllAccounted(ledger, past) && Accounted(ledger, |past| + 1, p)
    ensures AllAccounted(ledger, past + [p])
  {
    forall i | 0 <= i < |past + [p]|
      ensures Accounted(ledger, i + 1, (past + [p])[i])
    {
      if i < |past| {
        assert Accounted(ledger, i + 1, past[i]);
      }
    }
  }

  /** A command that makes no charge is over. */
  lemma EndsUncharged(ledger: seq<Entry>, past: seq<Past>, p: Past)
    requires AllAccounted(ledger, past) && UpTo(ledger, |past|) && Explained(p, [])
    ensures AllAccounted(ledger, past + [p])
  {
    NoChargesBeyond(ledger, |past| + 1);
    PastGrows(ledger, past, p);
  }

  lemma FinishQuietly(l: Limit, init: Tally, tr: Trace, ok: bool)
    requires Inv(l, init, tr) && Allowed(tr, Finish(ok)) && Writes(l, tr.sess, tr.phase.verb, ok, tr.phase.env) == []
    ensures Inv(l, init, Step(l, tr, Finish(ok)))
  {
    var ph := tr.phase;
    if ph.admitted {
      FirstWriteIsDue(l, tr.sess, ph.verb, ok, ph.env);
    }
    NothingToWrite(l, tr.sess, ph.verb, ok, ph.env);
    EndsUncharged(tr.ledger, tr.past, Past(ph.verb, ph.env, ph.admitted, if ok then Completed else Failed));
  }

  lemma FinishReady(l: Limit, s: Sess, v: Verb, e: Env, admitted: bool, ok: bool)
    requires Flagged(v, e, admitted, s) && (ok ==> admitted) && |Writes(l, s, v, ok, e)| > 0
    ensures var ws := Writes(l, s, v, ok, e);
            Ready(Writing(v, e, admitted, ok, ws[0], if |ws| > 1 then Some(ws[1]) else None, false, Locking), s)
  {
    if admitted {
      FirstWriteIsDue(l, s, v, ok, e);
    }
    SecondWriteTakesBack(l, s, v, ok, e);
  }

  /** The same ledger and session in another stage of a write. */
  lemma InPhase(l: Limit, init: Tally, tr: Trace, ph: Phase)
    requires Inv(l, init, tr) && ph.Writing? && !tr.phase.Ended?
    requires Ready(ph, tr.sess) && Recorded(ph, tr.ledger, Current(tr))
    ensures Inv(l, init, tr.(phase := ph))
  {
  }

  lemma FinishWriting(l: Limit, init: Tally, tr: Trace, ok: bool)
    requires Inv(l, init, tr) && Allowed(tr, Finish(ok)) && |Writes(l, tr.sess, tr.phase.verb, ok, tr.phase.env)| > 0
    ensures Inv(l, init, Step(l, tr, Finish(ok)))
  {
    var v, e, admitted := tr.phase.verb, tr.phase.env, tr.phase.admitted;
    FinishReady(l, tr.sess, v, e, admitted, ok);
    var ph := Step(l, tr, Finish(ok)).phase;
    assert Step(l, tr, Finish(ok)) == tr.(phase := ph) && ph.Writing? && !Stored(ph);
    InPhase(l, init, tr, ph);
  }

  // ---------------------------------------------------------------------------
  // The steps of a tally write

  lemma AppendCharge(ledger: seq<Entry>, cmd: nat, c: Increment)
    requires UndoFollowsCharge(ledger)
    ensures UndoFollowsCharge(ledger + [Entry(cmd, c, false)])
  {
  }

  lemma AppendUndo(ledger: seq<Entry>, cmd: nat, c: Increment, u: Increment)
    requires UndoFollowsCharge(ledger) && LastIs(ledger, Entry(cmd, c, false)) && TakesBack(c, u)
    ensures UndoFollowsCharge(ledger + [Entry(cmd, u, true)])
  {
    var more := ledger + [Entry(cmd, u, true)];
    assert more[|ledger| - 1] == Entry(cmd, c, false);
  }

  lemma BookCharge(l: Limit, init: Tally, tally: Tally, ledger: seq<Entry>, cmd: nat, c: Increment)
    requires Booked(l, init, tally, ledger) && cmd > 0
    ensures Booked(l, init, Charge(l, tally, c), ledger + [Entry(cmd, c, false)])
  {
    TallyGrows(l, init, ledger, Entry(cmd, c, false));
    AppendCharge(ledger, cmd, c);
  }

  lemma BookUndo(l: Limit, init: Tally, tally: Tally, ledger: seq<Entry>, cmd: nat, c: Increment, u: Increment)
    requires Booked(l, init, tally, ledger) && cmd > 0 && LastIs(ledger, Entry(cmd, c, false)) && TakesBack(c, u)
    ensures Booked(l, init, Charge(l, tally, u), ledger + [Entry(cmd, u, true)])
  {
    TallyGrows(l, init, ledger, Entry(cmd, u, true));
    AppendUndo(ledger, cmd, c, u);
  }

  lemma RecordCharge(ph: Phase, ledger: seq<Entry>, c: nat)
    requires ph.Writing? && ph.stage.Storing? && !ph.second && c > 0 && Recorded(ph, ledger, c)
    ensures Recorded(ph.(stage := Unlocking), ledger + [Entry(c, ph.charge, false)], c)
  {
    NoChargesBeyond(ledger, c);
    ChargesGrow(ledger, Entry(c, ph.charge, false), c);
  }

  lemma RecordUndo(ph: Phase, ledger: seq<Entry>, c: nat, u: Increment)
    requires ph.Writing? && ph.stage.Storing? && ph.second && c > 0 && Recorded(ph, ledger, c)
    ensures Recorded(ph.(stage := Unlocking), ledger + [Entry(c, u, true)], c)
  {
    ChargesGrow(ledger, Entry(c, u, true), c);
  }

  lemma ChargeStored(l: Limit, init: Tally, tr: Trace)
    requires Inv(l, init, tr) && tr.phase.Writing? && tr.phase.stage.Storing? && !tr.phase.second
    ensures Inv(l, init, Step(l, tr, Proceed))
  {
    var c := tr.phase.charge;
    BookCharge(l, init, tr.sess.tally, tr.ledger, Current(tr), c);
    PastUntouched(tr.ledger, Entry(Current(tr), c, false), tr.past);
    RecordCharge(tr.phase, tr.ledger, Current(tr));
  }

  lemma UndoStored(l: Limit, init: Tally, tr: Trace)
    requires Inv(l, init, tr) && tr.phase.Writing? && tr.phase.stage.Storing? && tr.phase.second
    ensures Inv(l, init, Step(l, tr, Proceed))
  {
    var c, u := tr.phase.charge, tr.phase.undo.value;
    BookUndo(l, init, tr.sess.tally, tr.ledger, Current(tr), c, u);
    PastUntouched(tr.ledger, Entry(Current(tr), u, true), tr.past);
    RecordUndo(tr.phase, tr.ledger, Current(tr), u);
  }

  lemma LockStep(l: Limit, init: Tally, tr: Trace)
    requires Inv(l, init, tr) && tr.phase.Writing? && (tr.phase.stage.Locking? || tr.phase.stage.Unlocking?)
    ensures Inv(l, init, Step(l, tr, Proceed))
  {
    InPhase(l, init, tr, Step(l, tr, Proceed).phase);
  }

  lemma ClearStep(l: Limit, init: Tally, tr: Trace)
    requires Inv(l, init, tr) && tr.phase.Writing? && tr.phase.stage.Clearing?
    ensures Inv(l, init, Step(l, tr, Proceed))
  {
    var ph := tr.phase;
    if !(ph.undo.Some? && !ph.second) {
      PastGrows(tr.ledger, tr.past, Past(ph.verb, ph.env, ph.admitted, if ph.ok then Completed else Failed));
    }
  }

  // ---------------------------------------------------------------------------
  // The end of the session

  function ExitLedger(tr: Trace, total: real): seq<Entry> {
    var ws := ExitWrites(tr.sess, total);
    if |ws| > 0 then tr.ledger + [Entry(Current(tr), ws[0], false)] else tr.ledger
  }

  /** What the exit event writes for a command whose flag is as its PRE handler left it. */
  lemma ExitWritesOf(s: Sess, v: Verb, e: Env, admitted: bool, total: real)
    requires s.pending == FlagOf(v, e, admitted)
    ensures ExitWrites(s, total) == if Flags(v, e, admitted) then [ExitCharge(v, total)] else []
  {
  }

  lemma ExitCharges(tr: Trace, total: real)
    ensures ChargesOf(ExitLedger(tr, total), Current(tr)) == ChargesOf(tr.ledger, Current(tr)) + ExitWrites(tr.sess, total)
  {
    var ws := ExitWrites(tr.sess, total);
    if |ws| > 0 {
      assert ws == [ws[0]];
      ChargesGrow(tr.ledger, Entry(Current(tr), ws[0], false), Current(tr));
    }
  }

  lemma QuitRunning(tr: Trace, total: real)
    requires Live(tr) && tr.phase.Running?
    ensures Explained(Past(tr.phase.verb, tr.phase.env, tr.phase.admitted, HowEnded(tr.phase, total)),
                      ChargesOf(ExitLedger(tr, total), Current(tr)))
  {
    ExitCharges(tr, total);
    NoChargesBeyond(tr.ledger, Current(tr));
    ExitWritesOf(tr.sess, tr.phase.verb, tr.phase.env, tr.phase.admitted, total);
  }

  lemma QuitInFirstWrite(tr: Trace, total: real)
    requires Live(tr) && tr.phase.Writing? && !tr.phase.second
    ensures Explained(Past(tr.phase.verb, tr.phase.env, tr.phase.admitted, HowEnded(tr.phase, total)),
                      ChargesOf(ExitLedger(tr, total), Current(tr)))
  {
    ExitCharges(tr, total);
    if !Stored(tr.phase) {
      NoChargesBeyond(tr.ledger, Current(tr));
    }
    ExitWritesOf(tr.sess, tr.phase.verb, tr.phase.env, tr.phase.admitted, total);
  }

  lemma QuitInSecondWrite(tr: Trace, total: real)
    requires Live(tr) && tr.phase.Writing? && tr.phase.second
    ensures Explained(Past(tr.phase.verb, tr.phase.env, tr.phase.admitted, HowEnded(tr.phase, total)),
                      ChargesOf(ExitLedger(tr, total), Current(tr)))
  {
    ExitCharges(tr, total);
  }

  lemma QuitBooked(l: Limit, init: Tally, tr: Trace, total: real)
    requires Booked(l, init, tr.sess.tally, tr.ledger)
    ensures Booked(l, init, Exit(l, tr.sess, total).tally, ExitLedger(tr, total))
  {
    var ws := ExitWrites(tr.sess, total);
    if |ws| > 0 {
      assert ws == [ws[0]];
      ChargeAll1(l, tr.sess.tally, ws[0]);
      BookCharge(l, init, tr.sess.tally, tr.ledger, Current(tr), ws[0]);
    }
  }

  lemma QuitPast(tr: Trace, total: real)
    requires AllAccounted(tr.ledger, tr.past) && Live(tr) && !tr.phase.Ended?
    ensures AllAccounted(ExitLedger(tr, total), tr.past)
    ensures !tr.phase.Boundary? ==>
              AllAccounted(ExitLedger(tr, total),
                           tr.past + [Past(tr.phase.verb, tr.phase.env, tr.phase.admitted, HowEnded(tr.phase, total))])
  {
    var ws := ExitWrites(tr.sess, total);
    if |ws| > 0 {
      PastUntouched(tr.ledger, Entry(Current(tr), ws[0], false), tr.past);
    }
    if !tr.phase.Boundary? {
      if tr.phase.Running? {
        QuitRunning(tr, total);
      } else if tr.phase.second {
        QuitInSecondWrite(tr, total);
      } else {
        QuitInFirstWrite(tr, total);
      }
      PastGrows(ExitLedger(tr, total), tr.past, Past(tr.phase.verb, tr.phase.env, tr.phase.admitted, HowEnded(tr.phase, total)));
    }
  }

  lemma QuitStep(l: Limit, init: Tally, tr: Trace, total: real)
    requires Inv(l, init, tr) && !tr.phase.Ended?
    ensures Inv(l, init, Step(l, tr, Quit(total)))
  {
    QuitBooked(l, init, tr, total);
    QuitPast(tr, total);
    assert Step(l, tr, Quit(total)).ledger == ExitLedger(tr, total);
  }

  // ---------------------------------------------------------------------------
  // Every step

  lemma ProceedKeeps(l: Limit, init: Tally, tr: Trace)
    requires Inv(l, init, tr) && tr.phase.Writing?
    ensures Inv(l, init, Step(l, tr, Proceed))
  {
    match tr.phase.stage
    case Storing =>
      if tr.phase.second {
        UndoStored(l, init, tr);
      } else {
        ChargeStored(l, init, tr);
      }
    case Clearing => ClearStep(l, init, tr);
    case _ => LockStep(l, init, tr);
  }

  lemma InvStep(l: Limit, init: Tally, tr: Trace, ev: Event)
    requires Inv(l, init, tr) && Allowed(tr, ev)
    ensures Inv(l, init, Step(l, tr, ev))
  {
    match ev
    case Begin(v, e) => BeginStep(l, init, tr, v, e);
    case Finish(ok) =>
      if |Writes(l, tr.sess, tr.phase.verb, ok, tr.phase.env)| == 0 {
        FinishQuietly(l, init, tr, ok);
      } else {
        FinishWriting(l, init, tr, ok);
      }
    case Quit(total) => QuitStep(l, init, tr, total);
    case Proceed => ProceedKeeps(l, init, tr);
  }

  lemma {:induction false} InvAlongRun(l: Limit, init: Tally, tr: Trace, evs: seq<Event>)
    requires Inv(l, init, tr) && Runs(l, tr, evs)
    ensures Inv(l, init, After(l, tr, evs))
    decreases evs
  {
    if evs != [] {
      InvStep(l, init, tr, evs[0]);
      InvAlongRun(l, init, Step(l, tr, evs[0]), evs[1..]);
    }
  }

  lemma FreshIsSound(l: Limit, s: Sess)
    requires s.pending == NoUpdate
    ensures Inv(l, s.tally, Fresh(s))
  {
    assert Increments([]) == [];
  }

  // ---------------------------------------------------------------------------
  // Whole sessions

  /** Wherever the session ends, the tally is the initial one charged with the ledger and
  nothing else, every second write takes its own command's charge back, each command that is
  over is accounted for, and nothing is pending outside a command. */
  lemma {:induction false} EachCommandAccountedFor(l: Limit, s: Sess, evs: seq<Event>)
    requires s.pending == NoUpdate && Runs(l, Fresh(s), evs)
    ensures var tr := After(l, Fresh(s), evs);
            && tr.sess.tally == ChargeAll(l, s.tally, Increments(tr.ledger))
            && UndoFollowsCharge(tr.ledger) && AllAccounted(tr.ledger, tr.past)
            && (tr.phase.Boundary? || tr.phase.Ended? ==> tr.sess.pending == NoUpdate)
  {
    FreshIsSound(l, s);
    InvAlongRun(l, s.tally, Fresh(s), evs);
  }

  /** In every run a completed transfer is charged exactly once, and whole. */
  lemma {:induction false} CompletedTransferChargedOnce(l: Limit, s: Sess, evs: seq<Event>, i: nat)
    requires s.pending == NoUpdate && Runs(l, Fresh(s), evs) && i < |After(l, Fresh(s), evs).past|
    requires var p := After(l, Fresh(s), evs).past[i]; p.end.Completed? && Counted(p.verb, p.env)
    ensures var tr := After(l, Fresh(s), evs);
            ChargesOf(tr.ledger, i + 1) == [WholeCharge(tr.past[i].verb, tr.past[i].env)]
  {
    CommandExplained(l, s, evs, i);
  }

  /** In every run an admitted transfer that fails is charged once for the bytes it moved and
  for no file; only a STOR that moved and stored nothing may go without. */
  lemma {:induction false} FailedTransferCharged(l: Limit, s: Sess, evs: seq<Event>, i: nat)
    requires s.pending == NoUpdate && Runs(l, Fresh(s), evs) && i < |After(l, Fresh(s), evs).past|
    requires var p := After(l, Fresh(s), evs).past[i]; p.end.Failed? && p.admitted && Counted(p.verb, p.env)
    ensures var tr := After(l, Fresh(s), evs);
            var c := FailedCharge(tr.past[i].verb, tr.past[i].env);
            || ChargesOf(tr.ledger, i + 1) == [c]
            || (tr.past[i].verb == Stor && c == NOTHING && ChargesOf(tr.ledger, i + 1) == [])
  {
    CommandExplained(l, s, evs, i);
  }

  /** In every run an admitted transfer that the end of the session cuts off is charged by its
  handler if that got to its store, and by the exit event if the flag was not yet cleared:
  once, unless the session ended between the two. */
  lemma {:induction false} CutOffTransferCharged(l: Limit, s: Sess, evs: seq<Event>, i: nat)
    requires s.pending == NoUpdate && Runs(l, Fresh(s), evs) && i < |After(l, Fresh(s), evs).past|
    requires var p := After(l, Fresh(s), evs).past[i]; p.end.CutOff? && p.admitted && Counted(p.verb, p.env)
    ensures var tr := After(l, Fresh(s), evs);
            var p, charges := tr.past[i], ChargesOf(tr.ledger, i + 1);
            && |charges| == (if p.end.stored then 1 else 0) + (if p.end.cleared then 0 else 1)
            && (p.end.stored ==> Due(p.verb, p.end.ok, p.env, charges[..1]))
            && (!p.end.cleared ==> charges[|charges| - 1] == ExitCharge(p.verb, p.end.total))
  {
    CommandExplained(l, s, evs, i);
  }

  /** In every run a DELE that the end of the session cuts off is charged for an upload of one
  file if and only if it had found its file, on a path that counts; its own charge it has
  only if that was stored. */
  lemma {:induction false} CutOffDeleteChargedIff(l: Limit, s: Sess, evs: seq<Event>, i: nat)
    requires s.pending == NoUpdate && Runs(l, Fresh(s), evs) && i < |After(l, Fresh(s), evs).past|
    requires var p := After(l, Fresh(s), evs).past[i]; p.end.CutOff? && p.verb == Dele && p.admitted
    ensures var tr := After(l, Fresh(s), evs);
            var p, charges := tr.past[i], ChargesOf(tr.ledger, i + 1);
            var upload := Increment(p.end.total, 0.0, p.end.total, 1, 0, 1);
            && (upload in charges <==> Found(p.env))
            && charges == (if p.end.stored then [Increment(-StatSize(p.env.before), 0.0, 0.0, -1, 0, 0)] else [])
                          + (if Found(p.env) then [upload] else [])
  {
    CommandExplained(l, s, evs, i);
    DeleteExplained(After(l, Fresh(s), evs).past[i], ChargesOf(After(l, Fresh(s), evs).ledger, i + 1));
  }

  lemma DeleteExplained(p: Past, charges: seq<Increment>)
    requires Explained(p, charges) && p.end.CutOff? && p.verb == Dele && p.admitted
    ensures var upload := Increment(p.end.total, 0.0, p.end.total, 1, 0, 1);
            && (upload in charges <==> Found(p.env))
            && charges == (if p.end.stored then [Increment(-StatSize(p.env.before), 0.0, 0.0, -1, 0, 0)] else [])
                          + (if Found(p.env) then [upload] else [])
  {
    if p.end.stored {
      assert charges[..1] == [charges[0]];
    }
  }

  lemma {:induction false} CommandExplained(l: Limit, s: Sess, evs: seq<Event>, i: nat)
    requires s.pending == NoUpdate && Runs(l, Fresh(s), evs) && i < |After(l, Fresh(s), evs).past|
    ensures var tr := After(l, Fresh(s), evs); Explained(tr.past[i], ChargesOf(tr.ledger, i + 1))
  {
    EachCommandAccountedFor(l, s, evs);
    assert Accounted(After(l, Fresh(s), evs).ledger, i + 1, After(l, Fresh(s), evs).past[i]);
  }

  /** The store of the charge is done and the flag still set. */
  predicate Exposed(tr: Trace) {
    tr.phase.Writing? && !tr.phase.second && (tr.phase.stage.Unlocking? || tr.phase.stage.Clearing?) && tr.sess.pending != NoUpdate
  }

  lemma {:induction false} AtMostOnceSoFar(l: Limit, init: Tally, tr: Trace, c: nat)
    requires Inv(l, init, tr) && !tr.phase.Ended?
    ensures |ChargesOf(tr.ledger, c)| <= 1
    ensures c == Current(tr) ==> |ChargesOf(tr.ledger, c)| == if tr.phase.Writing? && Stored(tr.phase) then 1 else 0
  {
    if c == 0 {
      NoneForZero(tr.ledger);
    } else if c <= |tr.past| {
      assert Accounted(tr.ledger, c - 1 + 1, tr.past[c - 1]);
    } else if c > Current(tr) || !(tr.phase.Writing? && Stored(tr.phase)) {
      NoChargesBeyond(tr.ledger, c);
    }
  }

  lemma {:induction false} NoneForZero(ledger: seq<Entry>)
    requires forall i :: 0 <= i < |ledger| ==> ledger[i].cmd > 0
    ensures ChargesOf(ledger, 0) == []
  {
    if |ledger| > 0 {
      NoneForZero(ledger[..|ledger| - 1]);
    }
  }

  lemma {:induction false} LastEvent(l: Limit, tr: Trace, evs: seq<Event>)
    requires Runs(l, tr, evs) && |evs| > 0
    ensures var n := |evs| - 1;
            && Runs(l, tr, evs[..n]) && Allowed(After(l, tr, evs[..n]), evs[n])
            && After(l, tr, evs) == Step(l, After(l, tr, evs[..n]), evs[n])
    decreases evs
  {
    var n := |evs| - 1;
    if n == 0 {
      assert evs[..0] == [] && evs[1..] == [];
    } else {
      LastEvent(l, Step(l, tr, evs[0]), evs[1..]);
      assert evs[1..][..n - 1] == evs[..n][1..] && evs[..n][0] == evs[0];
    }
  }

  /** The last event was a Quit that came between a store and the clearing of the flag, during
  command c. */
  ghost predicate QuitExposed(l: Limit, s: Sess, evs: seq<Event>, c: nat)
    requires Runs(l, Fresh(s), evs)
  {
    && |evs| > 0 && evs[|evs| - 1].Quit? && Runs(l, Fresh(s), evs[..|evs| - 1])
    && Exposed(After(l, Fresh(s), evs[..|evs| - 1])) && c == Current(After(l, Fresh(s), evs[..|evs| - 1]))
  }

  /** A command is charged twice if and only if the session ends between the store of its
  charge and the clearing of the flag; never more often than that. */
  lemma {:induction false} ChargedTwiceIff(l: Limit, s: Sess, evs: seq<Event>, c: nat)
    requires s.pending == NoUpdate && Runs(l, Fresh(s), evs)
    ensures |ChargesOf(After(l, Fresh(s), evs).ledger, c)| == 2 <==> QuitExposed(l, s, evs, c)
    ensures |ChargesOf(After(l, Fresh(s), evs).ledger, c)| <= 2
  {
    FreshIsSound(l, s);
    if evs == [] {
      AtMostOnceSoFar(l, s.tally, Fresh(s), c);
    } else {
      LastEvent(l, Fresh(s), evs);
      var n := |evs| - 1;
      InvAlongRun(l, s.tally, Fresh(s), evs[..n]);
      StepCount(l, s.tally, After(l, Fresh(s), evs[..n]), evs[n], c);
    }
  }

  lemma {:induction false} StepCount(l: Limit, init: Tally, tr: Trace, ev: Event, c: nat)
    requires Inv(l, init, tr) && Allowed(tr, ev)
    ensures var n := |ChargesOf(Step(l, tr, ev).ledger, c)|;
            n <= 2 && (n == 2 <==> ev.Quit? && Exposed(tr) && c == Current(tr))
  {
    if ev.Quit? {
      AtMostOnceSoFar(l, init, tr, c);
      QuitCount(l, init, tr, ev.total, c);
      assert tr.phase.Writing? && tr.phase.second ==> tr.sess.pending == NoUpdate;
    } else {
      InvStep(l, init, tr, ev);
      AtMostOnceSoFar(l, init, Step(l, tr, ev), c);
    }
  }

  lemma {:induction false} QuitCount(l: Limit, init: Tally, tr: Trace, total: real, c: nat)
    requires Inv(l, init, tr) && !tr.phase.Ended?
    ensures |ChargesOf(Step(l, tr, Quit(total)).ledger, c)| ==
            |ChargesOf(tr.ledger, c)| + if tr.sess.pending != NoUpdate && c == Current(tr) then 1 else 0
  {
    var ws := ExitWrites(tr.sess, total);
    if |ws| > 0 {
      ChargesGrow(tr.ledger, Entry(Current(tr), ws[0], false), c);
    }
  }

  /** Left alone, the writes of a handler go through and leave what `Post` says. */
  function Left(tr: Trace): nat {
    if !tr.phase.Writing? then 0
    else (if tr.phase.second then 0 else 4)
         + match tr.phase.stage case Locking => 4 case Storing => 3 case Unlocking => 2 case Clearing => 1
  }

  function Undisturbed(l: Limit, tr: Trace): Trace
    decreases Left(tr)
  {
    if tr.phase.Writing? then Undisturbed(l, ProceedStep(l, tr)) else tr
  }

  lemma OneWrite(l: Limit, tr: Trace)
    requires tr.phase.Writing? && tr.phase.stage.Locking? && (tr.phase.second ==> tr.phase.undo.Some?)
    ensures var ph := tr.phase;
            var inc := if ph.second then ph.undo.value else ph.charge;
            var sess := tr.sess.(tally := Charge(l, tr.sess.tally, inc), pending := NoUpdate);
            var ledger := tr.ledger + [Entry(Current(tr), inc, ph.second)];
            Undisturbed(l, tr) ==
            if ph.undo.Some? && !ph.second then Undisturbed(l, Trace(sess, ph.(second := true), ledger, tr.past))
            else Trace(Tidied(sess, ph.verb), Boundary, ledger,
                       tr.past + [Past(ph.verb, ph.env, ph.admitted, if ph.ok then Completed else Failed)])
  {
    var t1 := ProceedStep(l, tr);
    var t2 := ProceedStep(l, t1);
    var t3 := ProceedStep(l, t2);
    assert Undisturbed(l, tr) == Undisturbed(l, t1);
    assert Undisturbed(l, t1) == Undisturbed(l, t2);
    assert Undisturbed(l, t2) == Undisturbed(l, t3);
    assert Undisturbed(l, t3) == Undisturbed(l, ProceedStep(l, t3));
  }

  lemma {:induction false} UndisturbedHandlerIsPost(l: Limit, tr: Trace, ok: bool)
    requires Allowed(tr, Finish(ok))
    requires tr.sess.pending != NoUpdate ==> !tr.phase.env.ignored && (tr.phase.verb == Dele ==> tr.sess.dele)
    ensures Undisturbed(l, Step(l, tr, Finish(ok))).phase.Boundary?
    ensures Undisturbed(l, Step(l, tr, Finish(ok))).sess == Post(l, tr.sess, tr.phase.verb, ok, tr.phase.env)
  {
    var ph := tr.phase;
    var ws := Writes(l, tr.sess, ph.verb, ok, ph.env);
    ShortWrites(l, tr.sess, ph.verb, ok, ph.env);
    var t0 := Step(l, tr, Finish(ok));
    if |ws| > 0 {
      OneWrite(l, t0);
      if |ws| == 2 {
        var t1 := Trace(t0.sess.(tally := Charge(l, t0.sess.tally, ws[0]), pending := NoUpdate), t0.phase.(second := true),
                        t0.ledger + [Entry(Current(t0), ws[0], false)], t0.past);
        OneWrite(l, t1);
      }
      PostOfWrites(l, tr.sess, ph.verb, ok, ph.env);
    }
  }

  lemma {:induction false} PostOfWrites(l: Limit, s: Sess, v: Verb, ok: bool, e: Env)
    requires Writes(l, s, v, ok, e) != []
    ensures Post(l, s, v, ok, e) ==
            Tidied(s.(tally := ChargeAll(l, s.tally, Writes(l, s, v, ok, e)), pending := NoUpdate), v)
  {
  }

  // ---------------------------------------------------------------------------
  // Sessions that end at a bad moment

  /** The exit event does not know which command set the flag: a session that ends between
  the PRE and POST handlers of a DELE is charged for an upload of one file, if and only if the
  DELE had found its file on a path that counts. */
  lemma ExitDuringDeleteChargesUpload(l: Limit, s: Sess, e: Env, total: real)
    requires s.pending == NoUpdate
    ensures var tr := Step(l, Step(l, Fresh(s), Begin(Dele, e)), Quit(total));
            && tr.ledger == (if Found(e) then [Entry(1, Increment(total, 0.0, total, 1, 0, 1), false)] else [])
            && tr.sess.tally == (if Found(e) then Charge(l, s.tally, Increment(total, 0.0, total, 1, 0, 1)) else s.tally)
  {
    ChargeAll1(l, s.tally, Increment(total, 0.0, total, 1, 0, 1));
  }

  /** There is room for one more file, or the counter is about to wrap around to zero. */
  predicate OneMoreFits(avail: uint32, used: uint32) { avail == 0 || used < avail || used == UINT_MOD - 1 }

  /** What that charge does to the file limits. */
  lemma UploadChargeWithinIff(l: Limit, t: Tally, total: real)
    requires FilesWithin(l, t)
    ensures FilesWithin(l, Charge(l, t, Increment(total, 0.0, total, 1, 0, 1)))
            <==> OneMoreFits(l.filesIn, t.filesIn) && OneMoreFits(l.filesXfer, t.filesXfer)
  {
  }

  /** A run in which an admitted download is charged twice: the session ends while its POST
  handler waits to give the lock up. */
  lemma ExitInsideWriteChargesTwice(l: Limit, s: Sess, e: Env) returns (evs: seq<Event>)
    requires s.pending == NoUpdate && !e.ignored && Admitted(l, s, Retr, e)
    ensures Runs(l, Fresh(s), evs)
    ensures ChargesOf(After(l, Fresh(s), evs).ledger, 1) == [WholeCharge(Retr, e), WholeCharge(Retr, e)]
  {
    evs := [Begin(Retr, e), Finish(true), Proceed, Proceed, Quit(e.total)];
    var c := WholeCharge(Retr, e);
    var t1 := Trace(s.(pending := ReadUpdate), Running(Retr, e, true), [], []);
    var t2 := t1.(phase := Writing(Retr, e, true, true, c, None, false, Locking));
    var t3 := t1.(phase := Writing(Retr, e, true, true, c, None, false, Storing));
    var t4 := Trace(t1.sess.(tally := Charge(l, s.tally, c)), Writing(Retr, e, true, true, c, None, false, Unlocking),
                    [Entry(1, c, false)], []);
    assert [] + [Entry(1, c, false)] == [Entry(1, c, false)];
    DownloadStarts(l, s, e);
    assert Step(l, t2, Proceed) == t3 && Step(l, t3, Proceed) == t4;
    FiveEvents(l, Fresh(s), evs, t1, t2, t3, t4, Step(l, t4, Quit(e.total)));
    TwoLines(c);
    assert Step(l, t4, Quit(e.total)).ledger == [Entry(1, c, false)] + [Entry(1, c, false)];
  }

  lemma DownloadStarts(l: Limit, s: Sess, e: Env)
    requires !e.ignored && Admitted(l, s, Retr, e)
    ensures var t1 := Trace(s.(pending := ReadUpdate), Running(Retr, e, true), [], []);
            && Step(l, Fresh(s), Begin(Retr, e)) == t1
            && Step(l, t1, Finish(true)) == t1.(phase := Writing(Retr, e, true, true, WholeCharge(Retr, e), None, false, Locking))
  {
  }

  lemma TwoLines(c: Increment)
    ensures ChargesOf([Entry(1, c, false)] + [Entry(1, c, false)], 1) == [c, c]
  {
    ChargesGrow([], Entry(1, c, false), 1);
    assert [] + [Entry(1, c, false)] == [Entry(1, c, false)];
    ChargesGrow([Entry(1, c, false)], Entry(1, c, false), 1);
  }

  lemma {:induction false} FiveEvents(l: Limit, t0: Trace, evs: seq<Event>, t1: Trace, t2: Trace, t3: Trace, t4: Trace, t5: Trace)
    requires |evs| == 5
    requires Allowed(t0, evs[0]) && t1 == Step(l, t0, evs[0]) && Allowed(t1, evs[1]) && t2 == Step(l, t1, evs[1])
    requires Allowed(t2, evs[2]) && t3 == Step(l, t2, evs[2]) && Allowed(t3, evs[3]) && t4 == Step(l, t3, evs[3])
    requires Allowed(t4, evs[4]) && t5 == Step(l, t4, evs[4])
    ensures Runs(l, t0, evs) && After(l, t0, evs) == t5
  {
    var e1, e2, e3, e4 := evs[1..], evs[2..], evs[3..], evs[4..];
    assert e1[1..] == e2 && e2[1..] == e3 && e3[1..] == e4 && e4[1..] == [];
    assert Runs(l, t5, []) && After(l, t5, []) == t5;
    assert Runs(l, t4, e4) && After(l, t4, e4) == t5;
    assert Runs(l, t3, e3) && After(l, t3, e3) == t5;
    assert Runs(l, t2, e2) && After(l, t2, e2) == t5;
    assert Runs(l, t1, e1) && After(l, t1, e1) == t5;
  }
}
