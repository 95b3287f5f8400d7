/** The quota handlers of one session: PRE_CMD, POST_CMD and POST_CMD_ERR of STOR, STOU,
APPE, RETR and DELE (the commands of section 4.1.3 of RFC 959), and the exit event.

The handlers are functions of the session's state and of what they see of the file
system; `QuotaHandlers` holds the methods that compute them. The tally here is the
session's own and nobody else writes it; tally reads and writes succeed.
*/
module SessionQuota {
  import opened QuotaTypes

  datatype Stat = Size(n: real) | Absent | StatError

  datatype Pending = NoUpdate | ReadUpdate | WriteUpdate

  /** `disk` is the size cached by a PRE handler, `dele` whether a DELE found its file. */
  datatype Sess = Sess(tally: Tally, pending: Pending, disk: real, dele: bool)

  datatype Verb = Stor | Appe | Retr | Dele

  /** What a command meets: whether its path is excluded, what lstat says before and
  after, the bytes transferred, whether an aborted upload was deleted
  (DeleteAbortedStores), and whether unlinking works. */
  datatype Env = Env(ignored: bool, before: Stat, after: Stat, total: real, skip: bool, unlinked: bool)

  function StatSize(st: Stat): real { if st.Size? then st.n else 0.0 }

  /** The increment a POST handler derives from a second lstat. */
  function Growth(st: Stat, disk: real, total: real): real {
    match st
    case Size(n) => n - disk
    case Absent => 0.0
    case StatError => total
  }

  predicate BytesFull(avail: real, used: real) { avail > 0.0 && used >= avail }

  predicate FilesFull(avail: uint32, used: uint32) { avail != 0 && used >= avail }

  // ---------------------------------------------------------------------------
  // PRE handlers: the new state and whether the command is admitted

  predicate UploadDenied(l: Limit, t: Tally) { BytesFull(l.bytesIn, t.bytesIn) || BytesFull(l.bytesXfer, t.bytesXfer) }

  predicate Denied(l: Limit, t: Tally, v: Verb) {
    match v
    case Stor => UploadDenied(l, t) || FilesFull(l.filesIn, t.filesIn) || FilesFull(l.filesXfer, t.filesXfer)
    case Appe => UploadDenied(l, t)
    case Retr => BytesFull(l.bytesOut, t.bytesOut) || BytesFull(l.bytesXfer, t.bytesXfer)
                 || FilesFull(l.filesOut, t.filesOut) || FilesFull(l.filesXfer, t.filesXfer)
    case Dele => false
  }

  predicate Admitted(l: Limit, s: Sess, v: Verb, e: Env) { e.ignored || !Denied(l, s.tally, v) }

  function Pre(l: Limit, s: Sess, v: Verb, e: Env): Sess {
    match v
    case Stor | Appe =>
      if e.ignored then s.(pending := NoUpdate)
      else if Denied(l, s.tally, v) then s
      else s.(disk := StatSize(e.before), pending := WriteUpdate)
    case Retr =>
      if e.ignored || Denied(l, s.tally, v) then s else s.(pending := ReadUpdate)
    case Dele =>
      if e.ignored then s.(dele := false)
      else if e.before.Size? then s.(disk := e.before.n, dele := true, pending := WriteUpdate)
      else s.(disk := 0.0, dele := false)
  }

  // ---------------------------------------------------------------------------
  // POST handlers: the tally writes they make, in order

  /** The tally is over a byte limit; the upload limit is looked at first. */
  predicate Overrun(l: Limit, t: Tally) {
    if BytesFull(l.bytesIn, t.bytesIn) then t.bytesIn > l.bytesIn
    else l.bytesXfer > 0.0 && t.bytesXfer > l.bytesXfer
  }

  function Undo(c: Increment, files: int32): Increment {
    Increment(-c.bytesIn, 0.0, -c.bytesXfer, files, 0, files)
  }

  function UploadCharge(s: Sess, v: Verb, ok: bool, e: Env): Increment {
    var stored := if v == Stor && !ok && e.total <= 0.0 then e.total else Growth(e.after, s.disk, e.total);
    var isNew := v == Stor && ok && s.disk == 0.0;
    Increment(stored, 0.0, e.total, if isNew then 1 else 0, 0, if v == Stor && ok then 1 else 0)
  }

  /** The charge of an upload; if it overruns a limit and the file can be removed, it is
  taken back together with one file. */
  function UploadWrites(l: Limit, t: Tally, c: Increment, removable: bool): seq<Increment> {
    if removable && Overrun(l, Charge(l, t, c)) then [c, Undo(c, -1)] else [c]
  }

  /** A failed STOR is charged only if it stored or moved something, and an overrun is taken
  back in any case. */
  function FailedStoreWrites(l: Limit, t: Tally, c: Increment): seq<Increment> {
    if c.bytesIn == 0.0 && c.bytesXfer == 0.0 then
      if Overrun(l, t) then [Undo(c, 0)] else []
    else if Overrun(l, Charge(l, t, c)) then [c, Undo(c, 0)] else [c]
  }

  /** The writes of the POST (ok) or POST_ERR (!ok) handler. */
  function Writes(l: Limit, s: Sess, v: Verb, ok: bool, e: Env): seq<Increment> {
    if e.ignored then []
    else
      match v
      case Stor =>
        var c := UploadCharge(s, v, ok, e);
        if e.skip then []
        else if ok then
          UploadWrites(l, s.tally, c, l.kind == Hard && e.unlinked)
        else FailedStoreWrites(l, s.tally, c)
      case Appe =>
        var c := UploadCharge(s, v, ok, e);
        UploadWrites(l, s.tally, c, l.kind == Hard && e.unlinked)
      case Retr => [Increment(0.0, e.total, e.total, 0, if ok then 1 else 0, if ok then 1 else 0)]
      case Dele => if ok && s.dele then [Increment(-s.disk, 0.0, 0.0, -1, 0, 0)] else []
  }

  function ExitWrites(s: Sess, total: real): seq<Increment> {
    match s.pending
    case NoUpdate => []
    case ReadUpdate => [Increment(0.0, total, total, 0, 1, 1)]
    case WriteUpdate => [Increment(total, 0.0, total, 1, 0, 1)]
  }

  function ChargeAll(l: Limit, t: Tally, ws: seq<Increment>): Tally
    decreases ws
  {
    if ws == [] then t else ChargeAll(l, Charge(l, t, ws[0]), ws[1..])
  }

  function Post(l: Limit, s: Sess, v: Verb, ok: bool, e: Env): Sess {
    var ws := Writes(l, s, v, ok, e);
    var t := ChargeAll(l, s.tally, ws);
    match v
    case Stor | Appe => s.(tally := t, pending := NoUpdate)
    case Retr => s.(tally := t, pending := if ws == [] then s.pending else NoUpdate)
    case Dele =>
      if e.ignored && ok then s
      else s.(tally := t, disk := 0.0, pending := if ok && ws == [] then s.pending else NoUpdate)
  }

  function Exit(l: Limit, s: Sess, total: real): Sess {
    s.(tally := ChargeAll(l, s.tally, ExitWrites(s, total)), pending := NoUpdate)
  }

  /** One whole command. A denied command goes to its POST_ERR handler; an admitted one
  ends in either, as the transfer (or another module) decides. */
  function Command(l: Limit, s: Sess, v: Verb, ok: bool, e: Env): Sess {
    Post(l, Pre(l, s, v, e), v, ok && Admitted(l, s, v, e), e)
  }

  // ---------------------------------------------------------------------------
  // Helpers about the writes

  lemma {:induction false} ChargeAll1(l: Limit, t: Tally, a: Increment)
    ensures ChargeAll(l, t, [a]) == Charge(l, t, a)
  {
    assert [a][1..] == [];
  }

  lemma {:induction false} ChargeAll2(l: Limit, t: Tally, a: Increment, b: Increment)
    ensures ChargeAll(l, t, [a, b]) == Charge(l, Charge(l, t, a), b)
  {
    assert [a, b][1..] == [b];
    ChargeAll1(l, Charge(l, t, a), b);
  }

  lemma {:induction false} ChargeAllConcat(l: Limit, t: Tally, a: seq<Increment>, b: seq<Increment>)
    ensures ChargeAll(l, t, a + b) == ChargeAll(l, ChargeAll(l, t, a), b)
    decreases a
  {
    if a == [] {
      assert a + b == b;
    } else {
      assert (a + b)[0] == a[0] && (a + b)[1..] == a[1..] + b;
      ChargeAllConcat(l, Charge(l, t, a[0]), a[1..], b);
    }
  }

  // ---------------------------------------------------------------------------
  // Limits hold at command boundaries

  ghost predicate FilesWithin(l: Limit, t: Tally) {
    && (l.filesIn != 0 ==> t.filesIn <= l.filesIn)
    && (l.filesOut != 0 ==> t.filesOut <= l.filesOut)
    && (l.filesXfer != 0 ==> t.filesXfer <= l.filesXfer)
  }

  ghost predicate BytesInWithin(l: Limit, t: Tally) { l.bytesIn > 0.0 ==> t.bytesIn <= l.bytesIn }

  lemma FilesColumnWithin(avail: uint32, used: uint32, inc: int32)
    requires avail != 0 ==> used <= avail
    requires inc == -1 || inc == 0 || (inc == 1 && !FilesFull(avail, used))
    ensures avail != 0 ==> AddFiles(avail, used, inc) <= avail
  {
  }

  lemma FilesWriteWithin(l: Limit, t: Tally, w: Increment)
    requires FilesWithin(l, t)
    requires w.filesIn == -1 || w.filesIn == 0 || (w.filesIn == 1 && !FilesFull(l.filesIn, t.filesIn))
    requires w.filesOut == -1 || w.filesOut == 0 || (w.filesOut == 1 && !FilesFull(l.filesOut, t.filesOut))
    requires w.filesXfer == -1 || w.filesXfer == 0 || (w.filesXfer == 1 && !FilesFull(l.filesXfer, t.filesXfer))
    ensures FilesWithin(l, Charge(l, t, w))
  {
    FilesColumnWithin(l.filesIn, t.filesIn, w.filesIn);
    FilesColumnWithin(l.filesOut, t.filesOut, w.filesOut);
    FilesColumnWithin(l.filesXfer, t.filesXfer, w.filesXfer);
  }

  /** A list of tally writes as the handlers make them: at most a charge and its undoing. */
  lemma {:induction false} ShortWrites(l: Limit, s: Sess, v: Verb, ok: bool, e: Env)
    ensures var ws := Writes(l, s, v, ok, e);
            && |ws| <= 2
            && (|ws| == 1 ==> ChargeAll(l, s.tally, ws) == Charge(l, s.tally, ws[0]))
            && (|ws| == 2 ==> ChargeAll(l, s.tally, ws) == Charge(l, Charge(l, s.tally, ws[0]), ws[1]))
  {
    var ws := Writes(l, s, v, ok, e);
    if |ws| == 1 {
      assert ws == [ws[0]];
      ChargeAll1(l, s.tally, ws[0]);
    } else if |ws| == 2 {
      assert ws == [ws[0], ws[1]];
      ChargeAll2(l, s.tally, ws[0], ws[1]);
    }
  }

  ghost predicate FileRaisesAllowed(l: Limit, t: Tally, w: Increment) {
    && (w.filesIn == 1 ==> !FilesFull(l.filesIn, t.filesIn))
    && (w.filesOut == 1 ==> !FilesFull(l.filesOut, t.filesOut))
    && (w.filesXfer == 1 ==> !FilesFull(l.filesXfer, t.filesXfer))
    && -1 <= w.filesIn <= 1 && 0 <= w.filesOut <= 1 && 0 <= w.filesXfer <= 1
  }

  /** The file increments of a command: a first write raises only counters that admission
  found below their limit, a second one raises none. */
  lemma FilesOfWrites(l: Limit, s: Sess, v: Verb, ok: bool, e: Env)
    ensures var ws := Writes(l, Pre(l, s, v, e), v, ok && Admitted(l, s, v, e), e);
            && (|ws| >= 1 ==> FileRaisesAllowed(l, s.tally, ws[0]))
            && (|ws| == 2 ==> -1 <= ws[1].filesIn <= 0 && ws[1].filesOut == 0 && -1 <= ws[1].filesXfer <= 0)
  {
  }

  function Charged(l: Limit, t: Tally, c: Increment, failedStore: bool): Tally {
    if failedStore && c.bytesIn == 0.0 && c.bytesXfer == 0.0 then t else Charge(l, t, c)
  }

  /** The tally after charging c and, when that overruns, taking it back. A failed STOR that
  stored nothing makes no charge; it takes its charge back under any limit, the others
  only when a hard limit had the file removed. */
  function Settled(l: Limit, t: Tally, c: Increment, failedStore: bool, removable: bool): Tally {
    var t1 := Charged(l, t, c, failedStore);
    if Overrun(l, t1) && (failedStore || removable) then Charge(l, t1, Undo(c, if failedStore then 0 else -1)) else t1
  }

  /** What an upload handler does to the session, written out. */
  lemma UploadOutcome(l: Limit, s: Sess, v: Verb, ok: bool, e: Env)
    requires (v == Stor || v == Appe) && !e.ignored && !(v == Stor && e.skip)
    ensures Post(l, s, v, ok, e) ==
            s.(tally := Settled(l, s.tally, UploadCharge(s, v, ok, e), v == Stor && !ok, l.kind == Hard && e.unlinked),
               pending := NoUpdate)
  {
    var c := UploadCharge(s, v, ok, e);
    UploadSettles(l, s.tally, c, l.kind == Hard && e.unlinked);
    FailedStoreSettles(l, s.tally, c, l.kind == Hard && e.unlinked);
  }

  lemma {:induction false} UploadSettles(l: Limit, t: Tally, c: Increment, removable: bool)
    ensures ChargeAll(l, t, UploadWrites(l, t, c, removable)) == Settled(l, t, c, false, removable)
  {
    ChargeAll1(l, t, c);
    ChargeAll2(l, t, c, Undo(c, -1));
  }

  lemma {:induction false} FailedStoreSettles(l: Limit, t: Tally, c: Increment, removable: bool)
    ensures ChargeAll(l, t, FailedStoreWrites(l, t, c)) == Settled(l, t, c, true, removable)
  {
    ChargeAll1(l, t, c);
    ChargeAll1(l, t, Undo(c, 0));
    ChargeAll2(l, t, c, Undo(c, 0));
  }

  /** No command raises a file counter past its limit: at admission the counters a
  successful command raises are below it. */
  lemma FilesStayWithin(l: Limit, s: Sess, v: Verb, ok: bool, e: Env)
    requires FilesWithin(l, s.tally)
    ensures FilesWithin(l, Command(l, s, v, ok, e).tally)
  {
    var s1 := Pre(l, s, v, e);
    var ws := Writes(l, s1, v, ok && Admitted(l, s, v, e), e);
    ShortWrites(l, s1, v, ok && Admitted(l, s, v, e), e);
    FilesOfWrites(l, s, v, ok, e);
    FilesAfterWrites(l, s.tally, ws, ChargeAll(l, s.tally, ws));
  }

  lemma FilesAfterWrites(l: Limit, t: Tally, ws: seq<Increment>, end: Tally)
    requires FilesWithin(l, t) && |ws| <= 2
    requires |ws| == 0 ==> end == t
    requires |ws| == 1 ==> end == Charge(l, t, ws[0])
    requires |ws| == 2 ==> end == Charge(l, Charge(l, t, ws[0]), ws[1])
    requires |ws| >= 1 ==> FileRaisesAllowed(l, t, ws[0])
    requires |ws| == 2 ==> -1 <= ws[1].filesIn <= 0 && ws[1].filesOut == 0 && -1 <= ws[1].filesXfer <= 0
    ensures FilesWithin(l, end)
  {
    if |ws| >= 1 {
      FilesWriteWithin(l, t, ws[0]);
    }
    if |ws| == 2 {
      FilesWriteWithin(l, Charge(l, t, ws[0]), ws[1]);
    }
  }

  /** The one way past the upload limit: undoing an upload that shrank a file the tally
  never covered, because it overran the transfer limit. */
  predicate ShrinkBreach(l: Limit, s: Sess, v: Verb, ok: bool, e: Env) {
    && (v == Stor || v == Appe) && !e.ignored && !(v == Stor && e.skip)
    && l.bytesIn > 0.0 && l.bytesXfer > 0.0
    && s.tally.bytesXfer + e.total > l.bytesXfer
    && -UploadCharge(Pre(l, s, v, e), v, ok && Admitted(l, s, v, e), e).bytesIn > l.bytesIn
  }

  lemma PostUploadWithinIff(l: Limit, s: Sess, v: Verb, ok: bool, e: Env)
    requires (v == Stor || v == Appe) && !e.ignored && !(v == Stor && e.skip)
    requires l.kind == Hard && e.unlinked && e.total >= 0.0
    requires NonNegative(s.tally) && BytesInWithin(l, s.tally)
    ensures BytesInWithin(l, Post(l, s, v, ok, e).tally)
            <==> !(l.bytesIn > 0.0 && l.bytesXfer > 0.0 && s.tally.bytesXfer + e.total > l.bytesXfer
                   && -UploadCharge(s, v, ok, e).bytesIn > l.bytesIn)
  {
    UploadOutcome(l, s, v, ok, e);
    SettledWithinIff(l, s.tally, UploadCharge(s, v, ok, e), v == Stor && !ok);
  }

  lemma SettledWithinIff(l: Limit, t: Tally, c: Increment, failedStore: bool)
    requires NonNegative(t) && BytesInWithin(l, t) && c.bytesXfer >= 0.0
    ensures BytesInWithin(l, Settled(l, t, c, failedStore, true))
            <==> !(l.bytesIn > 0.0 && l.bytesXfer > 0.0 && t.bytesXfer + c.bytesXfer > l.bytesXfer && -c.bytesIn > l.bytesIn)
  {
  }

  /** Under a hard limit and with unlinking at work, a command leaves the upload tally
  within its limit exactly when it is not such a breach. */
  lemma UploadStaysWithinIff(l: Limit, s: Sess, v: Verb, ok: bool, e: Env)
    requires l.kind == Hard && e.unlinked && e.total >= 0.0
    requires NonNegative(s.tally) && BytesInWithin(l, s.tally)
    requires v == Dele && e.before.Size? ==> e.before.n >= 0.0
    ensures BytesInWithin(l, Command(l, s, v, ok, e).tally) <==> !ShrinkBreach(l, s, v, ok, e)
  {
    var s1 := Pre(l, s, v, e);
    var done := ok && Admitted(l, s, v, e);
    assert s1.tally == s.tally;
    if (v == Stor || v == Appe) && !e.ignored && !(v == Stor && e.skip) {
      PostUploadWithinIff(l, s1, v, done, e);
    } else {
      ShortWrites(l, s1, v, done, e);
    }
  }

  lemma {:induction false} TallyStaysNonNegative(l: Limit, t: Tally, ws: seq<Increment>)
    requires NonNegative(t)
    ensures NonNegative(ChargeAll(l, t, ws))
    decreases ws
  {
    if ws != [] {
      TallyStaysNonNegative(l, Charge(l, t, ws[0]), ws[1..]);
    }
  }

  /** Such a breach exists: a STOR that would replace a large file the tally never covered by
  a small one, and is broken off when it passes the transfer limit. */
  lemma ShrinkBreachHappens()
    ensures exists l: Limit, s: Sess, e: Env ::
              && l.kind == Hard && e.unlinked && e.total >= 0.0 && NonNegative(s.tally) && BytesInWithin(l, s.tally)
              && Admitted(l, s, Stor, e) && !BytesInWithin(l, Command(l, s, Stor, false, e).tally)
  {
    var l := Limit(false, Hard, 10.0, 0.0, 10.0, 0, 0, 0);
    var s := Sess(Tally(5.0, 0.0, 5.0, 0, 0, 0), NoUpdate, 0.0, false);
    var e := Env(false, Size(100.0), Size(6.0), 6.0, false, true);
    UploadStaysWithinIff(l, s, Stor, false, e);
  }

  /** Taking back a completed STOR restores all six counters exactly when it created no net
  loss: the file was new (or files are not counted) and the growth did not hit the floor. */
  lemma RollbackRestoresIff(l: Limit, s: Sess, e: Env)
    requires NonNegative(s.tally) && e.total >= 0.0
    requires !e.ignored && !e.skip && Admitted(l, s, Stor, e)
    requires |Writes(l, Pre(l, s, Stor, e), Stor, true, e)| == 2
    ensures var disk := StatSize(e.before);
            var growth := Growth(e.after, disk, e.total);
            Command(l, s, Stor, true, e).tally == s.tally
            <==> && (disk == 0.0 || l.filesIn == 0 || s.tally.filesIn == 0)
                 && (l.bytesIn <= 0.0 || s.tally.bytesIn + growth >= 0.0)
  {
    var s1 := Pre(l, s, Stor, e);
    var ws := Writes(l, s1, Stor, true, e);
    ChargeAll2(l, s.tally, ws[0], ws[1]);
    assert ws == [ws[0], ws[1]];
  }

  /** Taking back a STOR that failed touches no file counter, so only the floor matters. */
  lemma FailedRollbackRestoresIff(l: Limit, s: Sess, e: Env)
    requires NonNegative(s.tally) && e.total >= 0.0
    requires !e.ignored && !e.skip && Admitted(l, s, Stor, e)
    requires |Writes(l, Pre(l, s, Stor, e), Stor, false, e)| == 2
    ensures var growth := if e.total == 0.0 then 0.0 else Growth(e.after, StatSize(e.before), e.total);
            Command(l, s, Stor, false, e).tally == s.tally <==> l.bytesIn <= 0.0 || s.tally.bytesIn + growth >= 0.0
  {
    var s1 := Pre(l, s, Stor, e);
    var ws := Writes(l, s1, Stor, false, e);
    ChargeAll2(l, s.tally, ws[0], ws[1]);
    assert ws == [ws[0], ws[1]];
  }

  /** Taking back an APPE, completed or failed, also takes back a file it never charged: both
  counts of stored files drop by one unless they are unlimited or zero, and the tally is
  restored if and only if they do not, and the growth did not hit the floor. */
  lemma AppendRollbackRestoresIff(l: Limit, s: Sess, ok: bool, e: Env)
    requires NonNegative(s.tally) && e.total >= 0.0 && !e.ignored && Admitted(l, s, Appe, e)
    requires |Writes(l, Pre(l, s, Appe, e), Appe, ok, e)| == 2
    ensures var t' := Command(l, s, Appe, ok, e).tally;
            && t'.filesIn == s.tally.filesIn - (if l.filesIn != 0 && s.tally.filesIn > 0 then 1 else 0)
            && t'.filesXfer == s.tally.filesXfer - (if l.filesXfer != 0 && s.tally.filesXfer > 0 then 1 else 0)
            && (t' == s.tally <==>
                  && (l.filesIn == 0 || s.tally.filesIn == 0) && (l.filesXfer == 0 || s.tally.filesXfer == 0)
                  && (l.bytesIn <= 0.0 || s.tally.bytesIn + Growth(e.after, StatSize(e.before), e.total) >= 0.0))
  {
    var s1 := Pre(l, s, Appe, e);
    var ws := Writes(l, s1, Appe, ok, e);
    ChargeAll2(l, s.tally, ws[0], ws[1]);
    assert ws == [ws[0], ws[1]];
  }

  /** In particular an overrunning upload of an absent file leaves no trace, whether it was
  completed or broken off. */
  lemma NewFileRollbackIsExact(l: Limit, s: Sess, ok: bool, e: Env)
    requires NonNegative(s.tally) && e.total >= 0.0
    requires !e.ignored && !e.skip && Admitted(l, s, Stor, e)
    requires e.before == Absent && (e.after.Size? ==> e.after.n >= 0.0)
    requires |Writes(l, Pre(l, s, Stor, e), Stor, ok, e)| == 2
    ensures Command(l, s, Stor, ok, e).tally == s.tally
  {
    if ok {
      RollbackRestoresIff(l, s, e);
    } else {
      FailedRollbackRestoresIff(l, s, e);
    }
  }

  // ---------------------------------------------------------------------------
  // Runs of whole commands

  datatype Cmd = Cmd(verb: Verb, ok: bool, env: Env)

  function RunCommands(l: Limit, s: Sess, cmds: seq<Cmd>): Sess
    decreases cmds
  {
    if cmds == [] then s
    else RunCommands(l, Command(l, s, cmds[0].verb, cmds[0].ok, cmds[0].env), cmds[1..])
  }

  /** Every command of the run finds a working unlink and is not a breach where it stands. */
  ghost predicate Orderly(l: Limit, s: Sess, cmds: seq<Cmd>)
    decreases cmds
  {
    cmds == [] ||
    (var c := cmds[0];
     && c.env.unlinked && c.env.total >= 0.0 && (c.env.before.Size? ==> c.env.before.n >= 0.0)
     && !ShrinkBreach(l, s, c.verb, c.ok, c.env)
     && Orderly(l, Command(l, s, c.verb, c.ok, c.env), cmds[1..]))
  }

  ghost predicate AtBoundary(l: Limit, s: Sess) {
    FilesWithin(l, s.tally) && BytesInWithin(l, s.tally) && NonNegative(s.tally) && s.pending == NoUpdate
  }

  lemma NothingPendingAfterCommand(l: Limit, s: Sess, v: Verb, ok: bool, e: Env)
    requires s.pending == NoUpdate
    ensures Command(l, s, v, ok, e).pending == NoUpdate
  {
  }

  /** What a whole command promises at a command boundary: file counters within their limits,
  byte counters not negative, nothing pending, and under a hard limit with unlinking at work
  the upload tally within its limit if and only if the command is not a breach. */
  ghost predicate Promised(l: Limit, s: Sess, v: Verb, ok: bool, e: Env, s': Sess) {
    && FilesWithin(l, s'.tally) && NonNegative(s'.tally) && s'.pending == NoUpdate
    && (l.kind == Hard && e.unlinked && e.total >= 0.0 && (e.before.Size? ==> e.before.n >= 0.0) ==>
          (BytesInWithin(l, s'.tally) <==> !ShrinkBreach(l, s, v, ok, e)))
  }

  lemma CommandKeepsPromise(l: Limit, s: Sess, v: Verb, ok: bool, e: Env)
    requires AtBoundary(l, s)
    ensures Promised(l, s, v, ok, e, Command(l, s, v, ok, e))
  {
    FilesStayWithin(l, s, v, ok, e);
    NothingPendingAfterCommand(l, s, v, ok, e);
    TallyStaysNonNegative(l, s.tally, Writes(l, Pre(l, s, v, e), v, ok && Admitted(l, s, v, e), e));
    if l.kind == Hard && e.unlinked && e.total >= 0.0 && (e.before.Size? ==> e.before.n >= 0.0) {
      UploadStaysWithinIff(l, s, v, ok, e);
    }
  }

  /** Under a hard limit, after any number of commands: the upload tally and all three file
  counters are within their limits and no update is pending. */
  lemma {:induction false} LimitsHoldAlongRun(l: Limit, s: Sess, cmds: seq<Cmd>)
    requires l.kind == Hard && AtBoundary(l, s) && Orderly(l, s, cmds)
    ensures AtBoundary(l, RunCommands(l, s, cmds))
    decreases cmds
  {
    if cmds != [] {
      var c := cmds[0];
      CommandKeepsPromise(l, s, c.verb, c.ok, c.env);
      LimitsHoldAlongRun(l, Command(l, s, c.verb, c.ok, c.env), cmds[1..]);
    }
  }

  /** A denied APPE still reaches its POST_ERR handler, which measures the file against
  whatever size an earlier command left in the cache. It leaves the tally alone exactly
  when there is no file, or the cache happens to be right, or the tally is at the floor. */
  lemma DeniedAppendChargesIff(l: Limit, s: Sess, e: Env)
    requires !e.ignored && Denied(l, s.tally, Appe) && e.total == 0.0 && NonNegative(s.tally) && l.bytesIn > 0.0
    requires |Writes(l, s, Appe, false, e)| == 1
    ensures Command(l, s, Appe, false, e).tally == s.tally
            <==> !e.after.Size? || e.after.n == s.disk || (s.tally.bytesIn == 0.0 && e.after.n < s.disk)
  {
    ShortWrites(l, s, Appe, false, e);
  }
}
