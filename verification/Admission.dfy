/** What admission is for: a command is let through exactly if every limited counter it could
raise is still below its limit, so that no counter is raised once it has reached its limit.
*/
module Admission {
  import opened QuotaTypes
  import opened SessionQuota

  /** A limited counter has not reached its limit. */
  predicate Room(l: Limit, t: Tally, c: Counter) { AvailOf(l, c) > 0.0 ==> UsedOf(t, c) < AvailOf(l, c) }

  /** The counters a command of this kind is held to. */
  function Own(v: Verb): set<Counter> {
    match v
    case Stor => {BytesIn, BytesXfer, FilesIn, FilesXfer}
    case Appe => {BytesIn, BytesXfer}
    case Retr => {BytesOut, BytesXfer, FilesOut, FilesXfer}
    case Dele => {}
  }

  /** A command on a path that counts is refused if and only if one of its own counters has
  reached an active limit. */
  lemma RefusedIffReached(l: Limit, s: Sess, v: Verb, e: Env)
    ensures Admitted(l, s, v, e) <==> e.ignored || forall c :: c in Own(v) ==> Room(l, s.tally, c)
  {
    var t := s.tally;
    assert Room(l, t, BytesIn) <==> !BytesFull(l.bytesIn, t.bytesIn);
    assert Room(l, t, BytesOut) <==> !BytesFull(l.bytesOut, t.bytesOut);
    assert Room(l, t, BytesXfer) <==> !BytesFull(l.bytesXfer, t.bytesXfer);
    assert Room(l, t, FilesIn) <==> !FilesFull(l.filesIn, t.filesIn);
    assert Room(l, t, FilesOut) <==> !FilesFull(l.filesOut, t.filesOut);
    assert Room(l, t, FilesXfer) <==> !FilesFull(l.filesXfer, t.filesXfer);
    match v {
      case Stor => assert BytesIn in Own(v) && BytesXfer in Own(v) && FilesIn in Own(v) && FilesXfer in Own(v);
      case Appe => assert BytesIn in Own(v) && BytesXfer in Own(v);
      case Retr => assert BytesOut in Own(v) && BytesXfer in Own(v) && FilesOut in Own(v) && FilesXfer in Own(v);
      case Dele =>
    }
  }

  /** Sizes and transfers are not negative, and a refused command has moved nothing. */
  predicate Sensible(l: Limit, s: Sess, v: Verb, e: Env) {
    && e.total >= 0.0 && (e.before.Size? ==> e.before.n >= 0.0)
    && (!Admitted(l, s, v, e) ==> e.total == 0.0)
  }

  predicate Raised(t: Tally, t': Tally, c: Counter) { UsedOf(t', c) > UsedOf(t, c) }

  lemma {:induction false} ChargeRaises(l: Limit, t: Tally, w: Increment, c: Counter)
    requires NonNegative(t) && Spares(w, c)
    ensures UsedOf(Charge(l, t, w), c) <= UsedOf(t, c) && NonNegative(Charge(l, t, w))
  {
  }

  /** The write adds nothing to the column, and takes one file at most. */
  predicate Spares(w: Increment, c: Counter) {
    match c
    case BytesIn => w.bytesIn <= 0.0
    case BytesOut => w.bytesOut <= 0.0
    case BytesXfer => w.bytesXfer <= 0.0
    case FilesIn => -1 <= w.filesIn <= 0
    case FilesOut => -1 <= w.filesOut <= 0
    case FilesXfer => -1 <= w.filesXfer <= 0
  }

  /** An upload's second write takes the first one back, and a file with it or none. */
  lemma ChargeOrUndo(l: Limit, t: Tally, u: Increment, removable: bool, w: Increment) returns (undone: bool, files: int32)
    requires w in UploadWrites(l, t, u, removable) || w in FailedStoreWrites(l, t, u)
    ensures -1 <= files <= 0 && w == if undone then Undo(u, files) else u
  {
    if w == u {
      undone, files := false, 0;
    } else if w == Undo(u, 0) {
      undone, files := true, 0;
    } else {
      undone, files := true, -1;
    }
  }

  lemma UploadWritesAre(l: Limit, s: Sess, v: Verb, ok: bool, e: Env, i: nat) returns (undone: bool, files: int32)
    requires (v == Stor || v == Appe) && i < |Writes(l, s, v, ok, e)|
    ensures -1 <= files <= 0
    ensures Writes(l, s, v, ok, e)[i] == if undone then Undo(UploadCharge(s, v, ok, e), files) else UploadCharge(s, v, ok, e)
  {
    var ws, u := Writes(l, s, v, ok, e), UploadCharge(s, v, ok, e);
    assert ws == UploadWrites(l, s.tally, u, l.kind == Hard && e.unlinked) || ws == FailedStoreWrites(l, s.tally, u);
    undone, files := ChargeOrUndo(l, s.tally, u, l.kind == Hard && e.unlinked, ws[i]);
  }

  lemma UploadSpares(l: Limit, s: Sess, v: Verb, ok: bool, e: Env, c: Counter, i: nat)
    requires (v == Stor || v == Appe) && i < |Writes(l, s, v, ok, e)| && c !in Own(v)
    ensures Spares(Writes(l, s, v, ok, e)[i], c)
  {
    var _, _ := UploadWritesAre(l, s, v, ok, e, i);
    assert v == Stor ==> c == BytesOut || c == FilesOut;
  }

  /** What is not among a command's own counters no write of it adds to. */
  lemma WritesSpare(l: Limit, s: Sess, v: Verb, ok: bool, e: Env, c: Counter, i: nat)
    requires i < |Writes(l, s, v, ok, e)| && c !in Own(v)
    requires v == Dele ==> s.disk >= 0.0
    ensures Spares(Writes(l, s, v, ok, e)[i], c)
  {
    if v == Stor || v == Appe {
      UploadSpares(l, s, v, ok, e, c, i);
    }
  }

  lemma {:induction false} SparedColumn(l: Limit, t: Tally, ws: seq<Increment>, c: Counter)
    requires NonNegative(t) && |ws| <= 2
    requires forall i :: 0 <= i < |ws| ==> Spares(ws[i], c)
    ensures UsedOf(ChargeAll(l, t, ws), c) <= UsedOf(t, c)
  {
    if |ws| >= 1 {
      ChargeRaises(l, t, ws[0], c);
      if |ws| == 1 {
        assert ws == [ws[0]];
        ChargeAll1(l, t, ws[0]);
      } else {
        assert ws == [ws[0], ws[1]];
        ChargeAll2(l, t, ws[0], ws[1]);
        ChargeRaises(l, Charge(l, t, ws[0]), ws[1], c);
      }
    }
  }

  /** A command raises only its own counters, whether it completes, fails or is refused. */
  lemma RaisesOnlyOwn(l: Limit, s: Sess, v: Verb, ok: bool, e: Env, c: Counter)
    requires NonNegative(s.tally) && Sensible(l, s, v, e)
    ensures Raised(s.tally, Command(l, s, v, ok, e).tally, c) ==> c in Own(v) && !e.ignored
  {
    var s1, done := Pre(l, s, v, e), ok && Admitted(l, s, v, e);
    var ws := Writes(l, s1, v, done, e);
    if c !in Own(v) && ws != [] {
      ShortWrites(l, s1, v, done, e);
      assert v == Dele ==> s1.disk >= 0.0;
      forall i | 0 <= i < |ws|
        ensures Spares(ws[i], c)
      {
        WritesSpare(l, s1, v, done, e, c, i);
      }
      SparedColumn(l, s.tally, ws, c);
    }
  }

  /** And each of them it can raise: the set is no larger than it has to be. */
  lemma OwnIsRaised(v: Verb, c: Counter)
    requires c in Own(v)
    ensures exists l: Limit, s: Sess, e: Env ::
              && NonNegative(s.tally) && Sensible(l, s, v, e) && Admitted(l, s, v, e)
              && Raised(s.tally, Command(l, s, v, true, e).tally, c)
  {
    var l := Limit(false, Soft, 100.0, 100.0, 100.0, 100, 100, 100);
    var s := Sess(Tally(0.0, 0.0, 0.0, 0, 0, 0), NoUpdate, 0.0, false);
    var e := Env(false, Absent, Size(5.0), 5.0, false, true);
    var ws := Writes(l, Pre(l, s, v, e), v, true, e);
    assert Sensible(l, s, v, e) && |ws| == 1;
    ChargeAll1(l, s.tally, ws[0]);
    assert ws == [ws[0]];
    assert Raised(s.tally, Command(l, s, v, true, e).tally, c);
  }

  /** A refused command raises nothing; only an APPE measures its file all the same. */
  lemma RefusedRaises(l: Limit, s: Sess, v: Verb, e: Env, c: Counter)
    requires NonNegative(s.tally) && Sensible(l, s, v, e) && !Admitted(l, s, v, e)
    ensures Raised(s.tally, Command(l, s, v, false, e).tally, c) ==> v == Appe && c == BytesIn
  {
    var ws := Writes(l, s, v, false, e);
    assert Pre(l, s, v, e) == s;
    if !(v == Appe && c == BytesIn) {
      ShortWrites(l, s, v, false, e);
      forall i | 0 <= i < |ws|
        ensures Spares(ws[i], c)
      {
        RefusedSpares(l, s, v, e, c, i);
      }
      SparedColumn(l, s.tally, ws, c);
    }
  }

  lemma RefusedRetrSpares(l: Limit, s: Sess, e: Env, c: Counter, i: nat)
    requires i < |Writes(l, s, Retr, false, e)| && e.total == 0.0
    ensures Spares(Writes(l, s, Retr, false, e)[i], c)
  {
    assert Writes(l, s, Retr, false, e)[i] == Increment(0.0, 0.0, 0.0, 0, 0, 0);
  }

  lemma RefusedSpares(l: Limit, s: Sess, v: Verb, e: Env, c: Counter, i: nat)
    requires i < |Writes(l, s, v, false, e)| && e.total == 0.0 && v != Dele && !(v == Appe && c == BytesIn)
    ensures Spares(Writes(l, s, v, false, e)[i], c)
  {
    if v == Retr {
      RefusedRetrSpares(l, s, e, c, i);
    } else {
      var undone, files := UploadWritesAre(l, s, v, false, e, i);
      RefusedCharge(s, v, e);
      if undone {
        UndoSpares(UploadCharge(s, v, false, e), files, c);
      }
    }
  }

  /** A charge with nothing but upload bytes. */
  predicate OnlyUpload(u: Increment) {
    u.bytesOut == 0.0 && u.bytesXfer == 0.0 && u.filesIn == 0 && u.filesOut == 0 && u.filesXfer == 0
  }

  lemma UndoSpares(u: Increment, files: int32, c: Counter)
    requires OnlyUpload(u) && -1 <= files <= 0 && (c == BytesIn ==> u.bytesIn == 0.0)
    ensures Spares(Undo(u, files), c)
  {
    var w := Undo(u, files);
    assert w.filesIn == files && w.filesOut == 0 && w.filesXfer == files;
    match c {
      case BytesIn => assert w.bytesIn == 0.0;
      case BytesOut => assert w.bytesOut == 0.0;
      case BytesXfer => assert w.bytesXfer == 0.0;
      case _ =>
    }
  }

  lemma RefusedCharge(s: Sess, v: Verb, e: Env)
    requires (v == Stor || v == Appe) && e.total == 0.0
    ensures var u := UploadCharge(s, v, false, e);
            OnlyUpload(u) && (v == Stor ==> u.bytesIn == 0.0)
  {
  }

  /** A counter that a command raises stood below its active limit before, for every counter
  and every command; the one exception is a refused APPE. */
  lemma RaisedFoundRoom(l: Limit, s: Sess, v: Verb, ok: bool, e: Env, c: Counter)
    requires NonNegative(s.tally) && Sensible(l, s, v, e)
    requires Raised(s.tally, Command(l, s, v, ok, e).tally, c)
    ensures Room(l, s.tally, c) || (v == Appe && c == BytesIn && !Admitted(l, s, v, e))
  {
    RaisesOnlyOwn(l, s, v, ok, e, c);
    RefusedIffReached(l, s, v, e);
    if !Admitted(l, s, v, e) {
      assert Command(l, s, v, ok, e) == Command(l, s, v, false, e);
      RefusedRaises(l, s, v, e, c);
    }
  }

  /** What a whole command keeps to: each counter it raises stood below its active limit. */
  ghost predicate Restrained(l: Limit, s: Sess, v: Verb, e: Env, s': Sess) {
    Sensible(l, s, v, e) ==>
      forall c :: Raised(s.tally, s'.tally, c) ==> Room(l, s.tally, c) || (v == Appe && c == BytesIn && !Admitted(l, s, v, e))
  }

  lemma CommandRestrained(l: Limit, s: Sess, v: Verb, ok: bool, e: Env)
    requires NonNegative(s.tally)
    ensures Restrained(l, s, v, e, Command(l, s, v, ok, e))
  {
    if Sensible(l, s, v, e) {
      forall c | Raised(s.tally, Command(l, s, v, ok, e).tally, c)
        ensures Room(l, s.tally, c) || (v == Appe && c == BytesIn && !Admitted(l, s, v, e))
      {
        RaisedFoundRoom(l, s, v, ok, e, c);
      }
    }
  }

  // ---------------------------------------------------------------------------
  // What is taken back

  /** The upload bytes or the transferred bytes are past their limit. A tally that stands
  exactly at its upload limit is not looked at any further. */
  predicate PastLimit(l: Limit, uploaded: real, transferred: real) {
    || (l.bytesIn > 0.0 && uploaded > l.bytesIn)
    || (l.bytesXfer > 0.0 && transferred > l.bytesXfer && !(l.bytesIn > 0.0 && uploaded == l.bytesIn))
  }

  lemma OverrunIsPast(l: Limit, t: Tally, u: Increment)
    requires NonNegative(t) && u.bytesXfer >= 0.0
    ensures Overrun(l, Charge(l, t, u)) <==> PastLimit(l, Max0(t.bytesIn + u.bytesIn), t.bytesXfer + u.bytesXfer)
  {
  }

  /** The charge of a completed upload, or of an APPE, is taken back if and only if it carries
  a tally past a hard limit and the file can be removed; under a soft limit it stands. That of
  a failed STOR is taken back under either kind of limit. */
  lemma TakenBackIff(l: Limit, s: Sess, v: Verb, ok: bool, e: Env)
    requires (v == Stor || v == Appe) && !e.ignored && !(v == Stor && e.skip) && NonNegative(s.tally) && e.total >= 0.0
    ensures var u := UploadCharge(s, v, ok, e);
            var past := PastLimit(l, Max0(s.tally.bytesIn + u.bytesIn), s.tally.bytesXfer + u.bytesXfer);
            var failed := v == Stor && !ok;
            |Writes(l, s, v, ok, e)| == 2
            <==> past && (if failed then u.bytesIn != 0.0 || u.bytesXfer != 0.0 else l.kind == Hard && e.unlinked)
  {
    OverrunIsPast(l, s.tally, UploadCharge(s, v, ok, e));
  }

  /** A command whose charge is not taken back charges just that, in every column. */
  lemma ChargeStands(l: Limit, s: Sess, v: Verb, ok: bool, e: Env)
    requires (v == Stor || v == Appe) && !e.ignored && |Writes(l, s, v, ok, e)| == 1
    requires !(v == Stor && !ok)
    ensures Post(l, s, v, ok, e).tally == Charge(l, s.tally, UploadCharge(s, v, ok, e))
  {
    ShortWrites(l, s, v, ok, e);
  }

  /** The size a later refused APPE is measured against: an admitted upload leaves the size its
  file had before it, a download and a refused or excluded upload leave what was there, and a
  DELE leaves nothing, save that one that succeeds on an excluded path leaves what was there. */
  lemma CacheAfter(l: Limit, s: Sess, v: Verb, ok: bool, e: Env)
    ensures var kept := v == Retr || e.ignored || !Admitted(l, s, v, e);
            Command(l, s, v, ok, e).disk ==
            if v == Dele then (if e.ignored && ok then s.disk else 0.0)
            else if kept then s.disk
            else if e.before.Size? then e.before.n else 0.0
  {
  }

  // ---------------------------------------------------------------------------
  // Whole sessions

  ghost predicate SensibleRun(l: Limit, s: Sess, cmds: seq<Cmd>)
    decreases cmds
  {
    cmds == [] ||
    (Sensible(l, s, cmds[0].verb, cmds[0].env)
     && SensibleRun(l, Command(l, s, cmds[0].verb, cmds[0].ok, cmds[0].env), cmds[1..]))
  }

  /** The session before command i of the run. */
  function Before(l: Limit, s: Sess, cmds: seq<Cmd>, i: nat): Sess
    requires i <= |cmds|
  {
    RunCommands(l, s, cmds[..i])
  }

  lemma {:induction false} BeforeNext(l: Limit, s: Sess, cmds: seq<Cmd>, i: nat)
    requires i < |cmds|
    ensures var b := Before(l, s, cmds, i);
            Before(l, s, cmds, i + 1) == Command(l, b, cmds[i].verb, cmds[i].ok, cmds[i].env)
    decreases i
  {
    BeforeFrom(l, s, cmds, i);
    if i == 0 {
      assert cmds[..0] == [] && cmds[1..][..0] == [];
    } else {
      BeforeNext(l, Command(l, s, cmds[0].verb, cmds[0].ok, cmds[0].env), cmds[1..], i - 1);
      BeforeFrom(l, s, cmds, i - 1);
    }
  }

  lemma {:induction false} SensibleBefore(l: Limit, s: Sess, cmds: seq<Cmd>, i: nat)
    requires i < |cmds| && NonNegative(s.tally) && SensibleRun(l, s, cmds)
    ensures var b := Before(l, s, cmds, i); NonNegative(b.tally) && Sensible(l, b, cmds[i].verb, cmds[i].env)
    decreases i
  {
    if i == 0 {
      assert cmds[..0] == [];
    } else {
      NonNegativeAfter(l, s, cmds[0].verb, cmds[0].ok, cmds[0].env);
      SensibleBefore(l, Command(l, s, cmds[0].verb, cmds[0].ok, cmds[0].env), cmds[1..], i - 1);
      BeforeFrom(l, s, cmds, i - 1);
    }
  }

  /** The first command, and then the rest. */
  lemma {:induction false} BeforeFrom(l: Limit, s: Sess, cmds: seq<Cmd>, i: nat)
    requires i < |cmds|
    ensures Before(l, s, cmds, i + 1) == Before(l, Command(l, s, cmds[0].verb, cmds[0].ok, cmds[0].env), cmds[1..], i)
  {
    var front := cmds[..i + 1];
    assert front != [] && front[0] == cmds[0] && front[1..] == cmds[1..][..i];
  }

  lemma NonNegativeAfter(l: Limit, s: Sess, v: Verb, ok: bool, e: Env)
    requires NonNegative(s.tally)
    ensures NonNegative(Command(l, s, v, ok, e).tally)
  {
    assert Pre(l, s, v, e).tally == s.tally;
    TallyStaysNonNegative(l, s.tally, Writes(l, Pre(l, s, v, e), v, ok && Admitted(l, s, v, e), e));
  }

  /** In every run of commands, whenever a counter rises it stood below its active limit, and
  whenever a command is refused one of its own counters had reached it; a refused APPE is the
  one way the upload counter rises without room. */
  lemma {:induction false} RunRaisesOnlyWithRoom(l: Limit, s: Sess, cmds: seq<Cmd>, i: nat, c: Counter)
    requires NonNegative(s.tally) && SensibleRun(l, s, cmds) && i < |cmds|
    ensures var b, cmd := Before(l, s, cmds, i), cmds[i];
            && (Raised(b.tally, Before(l, s, cmds, i + 1).tally, c) ==>
                  Room(l, b.tally, c) || (cmd.verb == Appe && c == BytesIn && !Admitted(l, b, Appe, cmd.env)))
            && (!Admitted(l, b, cmd.verb, cmd.env) <==>
                  !cmd.env.ignored && exists o :: o in Own(cmd.verb) && !Room(l, b.tally, o))
  {
    var b, cmd := Before(l, s, cmds, i), cmds[i];
    BeforeNext(l, s, cmds, i);
    SensibleBefore(l, s, cmds, i);
    RefusedIffReached(l, b, cmd.verb, cmd.env);
    if Raised(b.tally, Before(l, s, cmds, i + 1).tally, c) {
      RaisedFoundRoom(l, b, cmd.verb, cmd.ok, cmd.env, c);
    }
  }
}
