/** The command handlers as the source runs them, one session's variables updated step by
step. Each handler is proved to compute the function of `SessionQuota` it stands for, and
each whole command to keep what is promised at command boundaries.
*/
module QuotaHandlers {
  import opened QuotaTypes
  import opened SessionQuota
  import opened DiskUsage
  import opened Admission

  class Handlers {
    const limit: Limit
    var tally: Tally
    var pending: Pending
    var disk: real
    var dele: bool

    function View(): Sess reads this { Sess(tally, pending, disk, dele) }

    constructor (l: Limit, t: Tally)
      ensures limit == l && View() == Sess(t, NoUpdate, 0.0, false)
    {
      limit, tally, pending, disk, dele := l, t, NoUpdate, 0.0, false;
    }

    /** QUOTATAB_TALLY_WRITE */
    method TallyWrite(inc: Increment)
      modifies this`tally, this`pending
      ensures tally == Charge(limit, old(tally), inc) && pending == NoUpdate
    {
      tally := Charge(limit, tally, inc);
      pending := NoUpdate;
    }

    /** quotatab_pre_stor, also for STOU */
    method PreStor(e: Env) returns (admitted: bool)
      modifies this
      ensures View() == Pre(limit, old(View()), Stor, e)
      ensures admitted == Admitted(limit, old(View()), Stor, e)
    {
      if e.ignored {
        pending := NoUpdate;
        return true;
      }
      if limit.bytesIn > 0.0 && tally.bytesIn >= limit.bytesIn {
        return false;
      } else if limit.bytesXfer > 0.0 && tally.bytesXfer >= limit.bytesXfer {
        return false;
      }
      if limit.filesIn != 0 && tally.filesIn >= limit.filesIn {
        return false;
      } else if limit.filesXfer != 0 && tally.filesXfer >= limit.filesXfer {
        return false;
      }
      disk := match e.before case Size(n) => n case _ => 0.0;
      pending := WriteUpdate;
      admitted := true;
    }

    /** quotatab_pre_appe */
    method PreAppe(e: Env) returns (admitted: bool)
      modifies this
      ensures View() == Pre(limit, old(View()), Appe, e)
      ensures admitted == Admitted(limit, old(View()), Appe, e)
    {
      if e.ignored {
        pending := NoUpdate;
        return true;
      }
      if limit.bytesIn > 0.0 && tally.bytesIn >= limit.bytesIn {
        return false;
      } else if limit.bytesXfer > 0.0 && tally.bytesXfer >= limit.bytesXfer {
        return false;
      }
      disk := match e.before case Size(n) => n case _ => 0.0;
      pending := WriteUpdate;
      admitted := true;
    }

    /** quotatab_pre_retr */
    method PreRetr(e: Env) returns (admitted: bool)
      modifies this
      ensures View() == Pre(limit, old(View()), Retr, e)
      ensures admitted == Admitted(limit, old(View()), Retr, e)
    {
      if e.ignored {
        return true;
      }
      if limit.bytesOut > 0.0 && tally.bytesOut >= limit.bytesOut {
        return false;
      } else if limit.bytesXfer > 0.0 && tally.bytesXfer >= limit.bytesXfer {
        return false;
      }
      if limit.filesOut != 0 && tally.filesOut >= limit.filesOut {
        return false;
      } else if limit.filesXfer != 0 && tally.filesXfer >= limit.filesXfer {
        return false;
      }
      pending := ReadUpdate;
      admitted := true;
    }

    /** quotatab_pre_dele */
    method PreDele(e: Env)
      modifies this
      ensures View() == Pre(limit, old(View()), Dele, e)
    {
      dele := false;
      if e.ignored {
        return;
      }
      match e.before {
        case Size(n) =>
          disk := n;
          dele := true;
          pending := WriteUpdate;
        case _ =>
          disk := 0.0;
      }
    }

    /** The over-limit tests of the upload handlers. */
    method OverLimit() returns (over: bool)
      ensures over == Overrun(limit, tally)
    {
      if limit.bytesIn > 0.0 && tally.bytesIn >= limit.bytesIn {
        over := tally.bytesIn > limit.bytesIn;
      } else if limit.bytesXfer > 0.0 && tally.bytesXfer >= limit.bytesXfer {
        over := tally.bytesXfer > limit.bytesXfer;
      } else {
        over := false;
      }
    }

    /** The end of the upload handlers: over a byte limit, unlink the file (hard limits) and
    take the charge back; STOR and APPE proper do so only if the file is gone. */
    method TakeBackIfOver(c: Increment, files: int32, onlyIfRemoved: bool, unlinked: bool) returns (removed: bool)
      modifies this`tally, this`pending
      ensures removed == (Overrun(limit, old(tally)) && limit.kind == Hard && unlinked)
      ensures tally == if Overrun(limit, old(tally)) && (removed || !onlyIfRemoved)
                       then Charge(limit, old(tally), Undo(c, files)) else old(tally)
    {
      removed := false;
      var over := OverLimit();
      if over {
        if limit.kind == Hard && unlinked {
          removed := true;
        }
        if removed || !onlyIfRemoved {
          TallyWrite(Increment(-c.bytesIn, 0.0, -c.bytesXfer, files, 0, files));
        }
      }
    }

    method StoredBytes(e: Env) returns (stored: real)
      ensures stored == Growth(e.after, disk, e.total)
    {
      stored := e.total;
      match e.after {
        case Size(n) => stored := n - disk;
        case Absent => stored := 0.0;
        case StatError =>
      }
    }

    /** quotatab_post_stor; reports whether it unlinked the file. */
    method PostStor(e: Env) returns (removed: bool)
      modifies this
      ensures View() == Post(limit, old(View()), Stor, true, e)
      ensures removed == Removes(limit, old(View()), Stor, true, e)
    {
      removed := false;
      if e.ignored {
        pending := NoUpdate;
        return;
      }
      if e.skip {
        pending := NoUpdate;
        return;
      }
      var stored := StoredBytes(e);
      UploadOutcome(limit, View(), Stor, true, e);
      var c := Increment(stored, 0.0, e.total, if disk != 0.0 then 0 else 1, 0, 1);
      TallyWrite(c);
      removed := TakeBackIfOver(c, -1, true, e.unlinked);
      pending := NoUpdate;
    }

    /** quotatab_post_stor_err */
    method PostStorErr(e: Env) returns (removed: bool)
      modifies this
      ensures View() == Post(limit, old(View()), Stor, false, e)
      ensures removed == Removes(limit, old(View()), Stor, false, e)
    {
      removed := false;
      if e.ignored {
        pending := NoUpdate;
        return;
      }
      if e.skip {
        pending := NoUpdate;
        return;
      }
      removed := ChargeFailedStore(e);
      UploadOutcome(limit, old(View()), Stor, false, e);
    }

    method ChargeFailedStore(e: Env) returns (removed: bool)
      modifies this`tally, this`pending
      ensures pending == NoUpdate
      ensures var c := UploadCharge(old(View()), Stor, false, e);
              && tally == Settled(limit, old(tally), c, true, limit.kind == Hard && e.unlinked)
              && removed == (limit.kind == Hard && e.unlinked && Overrun(limit, Charged(limit, old(tally), c, true)))
    {
      var c := FailedStoreCharge(e);
      ChargeIfAny(c);
      removed := TakeBackIfOver(c, 0, false, e.unlinked);
      pending := NoUpdate;
    }

    method FailedStoreCharge(e: Env) returns (c: Increment)
      ensures c == UploadCharge(View(), Stor, false, e)
    {
      var stored := e.total;
      if stored > 0.0 {
        stored := StoredBytes(e);
      }
      c := Increment(stored, 0.0, e.total, 0, 0, 0);
    }

    method ChargeIfAny(c: Increment)
      modifies this`tally, this`pending
      ensures tally == Charged(limit, old(tally), c, true)
    {
      if c.bytesIn != 0.0 || c.bytesXfer != 0.0 {
        TallyWrite(c);
      }
    }

    /** quotatab_post_appe and quotatab_post_appe_err, which update the tally alike */
    method PostAppe(ok: bool, e: Env) returns (removed: bool)
      modifies this
      ensures View() == Post(limit, old(View()), Appe, ok, e)
      ensures removed == Removes(limit, old(View()), Appe, ok, e)
    {
      removed := false;
      if e.ignored {
        pending := NoUpdate;
        return;
      }
      var appended := StoredBytes(e);
      UploadOutcome(limit, View(), Appe, ok, e);
      var c := Increment(appended, 0.0, e.total, 0, 0, 0);
      TallyWrite(c);
      removed := TakeBackIfOver(c, -1, true, e.unlinked);
      pending := NoUpdate;
    }

    /** quotatab_post_retr and quotatab_post_retr_err */
    method PostRetr(ok: bool, e: Env)
      modifies this
      ensures View() == Post(limit, old(View()), Retr, ok, e)
    {
      if e.ignored {
        return;
      }
      var c := Increment(0.0, e.total, e.total, 0, if ok then 1 else 0, if ok then 1 else 0);
      ChargeAll1(limit, tally, c);
      TallyWrite(c);
    }

    /** quotatab_post_dele for a file of the session's own user */
    method PostDele(e: Env)
      modifies this
      ensures View() == Post(limit, old(View()), Dele, true, e)
    {
      if e.ignored {
        return;
      }
      if dele {
        var c := Increment(-disk, 0.0, 0.0, -1, 0, 0);
        ChargeAll1(limit, tally, c);
        TallyWrite(c);
      }
      disk := 0.0;
    }

    /** quotatab_post_dele_err */
    method PostDeleErr(e: Env)
      modifies this
      ensures View() == Post(limit, old(View()), Dele, false, e)
    {
      disk := 0.0;
      pending := NoUpdate;
    }

    /** A whole STOR or STOU, from its PRE handler to its POST or POST_ERR handler. */
    method Store(e: Env, ok: bool) returns (removed: bool)
      requires AtBoundary(limit, View())
      modifies this
      ensures View() == Command(limit, old(View()), Stor, ok, e)
      ensures Promised(limit, old(View()), Stor, ok, e, View()) && Restrained(limit, old(View()), Stor, e, View())
      ensures removed == Removes(limit, Pre(limit, old(View()), Stor, e), Stor, ok && Admitted(limit, old(View()), Stor, e), e)
    {
      CommandKeepsPromise(limit, View(), Stor, ok, e);
      CommandRestrained(limit, View(), Stor, ok, e);
      var admitted := PreStor(e);
      if admitted && ok {
        removed := PostStor(e);
      } else {
        removed := PostStorErr(e);
      }
    }

    /** A whole APPE, from its PRE handler to its POST or POST_ERR handler. */
    method Append(e: Env, ok: bool) returns (removed: bool)
      requires AtBoundary(limit, View())
      modifies this
      ensures View() == Command(limit, old(View()), Appe, ok, e)
      ensures Promised(limit, old(View()), Appe, ok, e, View()) && Restrained(limit, old(View()), Appe, e, View())
      ensures removed == Removes(limit, Pre(limit, old(View()), Appe, e), Appe, ok && Admitted(limit, old(View()), Appe, e), e)
    {
      CommandKeepsPromise(limit, View(), Appe, ok, e);
      CommandRestrained(limit, View(), Appe, ok, e);
      var admitted := PreAppe(e);
      removed := PostAppe(admitted && ok, e);
    }

    /** A whole RETR, from its PRE handler to its POST or POST_ERR handler. */
    method Retrieve(e: Env, ok: bool)
      requires AtBoundary(limit, View())
      modifies this
      ensures View() == Command(limit, old(View()), Retr, ok, e)
      ensures Promised(limit, old(View()), Retr, ok, e, View()) && Restrained(limit, old(View()), Retr, e, View())
    {
      CommandKeepsPromise(limit, View(), Retr, ok, e);
      CommandRestrained(limit, View(), Retr, ok, e);
      var admitted := PreRetr(e);
      PostRetr(admitted && ok, e);
    }

    /** A whole DELE, from its PRE handler to its POST or POST_ERR handler. */
    method Delete(e: Env, ok: bool)
      requires AtBoundary(limit, View())
      modifies this
      ensures View() == Command(limit, old(View()), Dele, ok, e)
      ensures Promised(limit, old(View()), Dele, ok, e, View()) && Restrained(limit, old(View()), Dele, e, View())
    {
      CommandKeepsPromise(limit, View(), Dele, ok, e);
      CommandRestrained(limit, View(), Dele, ok, e);
      PreDele(e);
      if ok {
        PostDele(e);
      } else {
        PostDeleErr(e);
      }
    }

    /** quotatab_exit_ev: the flag is cleared before the write. */
    method ExitEvent(total: real)
      modifies this
      ensures View() == Exit(limit, old(View()), total)
    {
      if pending == NoUpdate {
        return;
      }
      var c := if pending == ReadUpdate then Increment(0.0, total, total, 0, 1, 1)
               else Increment(total, 0.0, total, 1, 0, 1);
      ChargeAll1(limit, tally, c);
      pending := NoUpdate;
      TallyWrite(c);
    }
  }
}
