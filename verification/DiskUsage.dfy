/** What the upload tally is for: with a hard limit, the bytes a session keeps on disk.

The world holds the files the tally counts and lets STOR, APPE, RETR and DELE act on
them, lstat and unlink included, alongside the handlers of `SessionQuota`.
*/
module DiskUsage {
  import opened QuotaTypes
  import opened SessionQuota

  type Path = string

  datatype World = World(sess: Sess, fs: map<Path, real>)

  /** `size` is the size of the file once the transfer has stopped. */
  datatype Act =
    | Upload(verb: Verb, path: Path, size: real, total: real, ok: bool, skip: bool)
    | Download(path: Path, total: real, ok: bool)
    | Delete(path: Path, ok: bool)

  ghost function Usage(fs: map<Path, real>): real {
    if fs == map[] then 0.0 else var p :| p in fs; fs[p] + Usage(fs - {p})
  }

  lemma {:induction false} UsageWithout(fs: map<Path, real>, p: Path)
    requires p in fs
    ensures Usage(fs) == fs[p] + Usage(fs - {p})
    decreases |fs|
  {
    var q :| q in fs && Usage(fs) == fs[q] + Usage(fs - {q});
    if q != p {
      UsageWithout(fs - {q}, p);
      UsageWithout(fs - {p}, q);
      assert fs - {q} - {p} == fs - {p} - {q};
    }
  }

  lemma {:induction false} UsageNonNegative(fs: map<Path, real>)
    requires forall p :: p in fs ==> fs[p] >= 0.0
    ensures Usage(fs) >= 0.0
    decreases |fs|
  {
    if fs != map[] {
      var q :| q in fs && Usage(fs) == fs[q] + Usage(fs - {q});
      UsageNonNegative(fs - {q});
    }
  }

  function SizeOf(fs: map<Path, real>, p: Path): real { if p in fs then fs[p] else 0.0 }

  function Lstat(fs: map<Path, real>, p: Path): Stat { if p in fs then Size(fs[p]) else Absent }

  /** Writing or removing one file changes the usage by that file's change. */
  lemma UsageOfUpdate(fs: map<Path, real>, p: Path, n: real)
    ensures Usage(fs[p := n]) == Usage(fs) - SizeOf(fs, p) + n
    ensures Usage(fs - {p}) == Usage(fs) - SizeOf(fs, p)
  {
    UsageWithout(fs[p := n], p);
    assert fs[p := n] - {p} == fs - {p};
    if p in fs {
      UsageWithout(fs, p);
    } else {
      assert fs - {p} == fs;
    }
  }

  function EnvOf(fs: map<Path, real>, fs1: map<Path, real>, p: Path, total: real, skip: bool): Env {
    Env(false, Lstat(fs, p), Lstat(fs1, p), total, skip, true)
  }

  /** The handler removes the file: it takes its charge back under a hard limit, or (failed
  STOR) finds the tally over a limit. */
  predicate Removes(l: Limit, s: Sess, v: Verb, ok: bool, e: Env) {
    && l.kind == Hard && e.unlinked && !e.ignored && !(v == Stor && e.skip)
    && Overrun(l, Charged(l, s.tally, UploadCharge(s, v, ok, e), v == Stor && !ok))
  }

  /** The files after the transfer itself, before the POST handler. */
  function Transferred(l: Limit, w: World, a: Act): map<Path, real>
    requires a.Upload?
  {
    if Denied(l, w.sess.tally, a.verb) then w.fs
    else if a.skip && a.verb == Stor then w.fs - {a.path}
    else w.fs[a.path := a.size]
  }

  function UploadEnv(l: Limit, w: World, a: Act): Env
    requires a.Upload?
  {
    var denied := Denied(l, w.sess.tally, a.verb);
    EnvOf(w.fs, Transferred(l, w, a), a.path, if denied then 0.0 else a.total, a.skip && !denied)
  }

  function FilesAfter(l: Limit, w: World, a: Act): map<Path, real> {
    match a
    case Upload(v, p, size, total, ok, skip) =>
      var e := UploadEnv(l, w, a);
      var fs1 := Transferred(l, w, a);
      if Removes(l, Pre(l, w.sess, v, e), v, ok && !Denied(l, w.sess.tally, v), e) then fs1 - {p} else fs1
    case Download(p, total, ok) => w.fs
    case Delete(p, ok) => if ok then w.fs - {p} else w.fs
  }

  function SessAfter(l: Limit, w: World, a: Act): Sess {
    match a
    case Upload(v, p, size, total, ok, skip) => Command(l, w.sess, v, ok, UploadEnv(l, w, a))
    case Download(p, total, ok) => Command(l, w.sess, Retr, ok, EnvOf(w.fs, w.fs, p, total, false))
    case Delete(p, ok) => Command(l, w.sess, Dele, ok, EnvOf(w.fs, w.fs - {p}, p, 0.0, false))
  }

  function Do(l: Limit, w: World, a: Act): World { World(SessAfter(l, w, a), FilesAfter(l, w, a)) }

  /** The tally accounts for at least what is on disk. */
  ghost predicate Covered(w: World) {
    && (forall p :: p in w.fs ==> w.fs[p] >= 0.0)
    && w.sess.tally.bytesIn >= Usage(w.fs)
    && NonNegative(w.sess.tally)
  }

  /** What a refused APPE to an existing file charges: its size against the cached one. */
  function StaleCharge(w: World, p: Path): Increment
    requires p in w.fs
  {
    Increment(w.fs[p] - w.sess.disk, 0.0, 0.0, 0, 0, 0)
  }

  /** A refused APPE does no harm: the tally can bear the charge, or there is nothing to bear,
  or the charge is an overrun and gets taken back. */
  ghost predicate Bearable(l: Limit, w: World, p: Path) {
    p in w.fs ==>
      || w.fs[p] - w.sess.disk >= Usage(w.fs) - w.sess.tally.bytesIn
      || Usage(w.fs) == 0.0
      || Overrun(l, Charge(l, w.sess.tally, StaleCharge(w, p)))
  }

  predicate RefusedAppend(l: Limit, w: World, a: Act) {
    a.Upload? && a.verb == Appe && Denied(l, w.sess.tally, Appe) && a.path in w.fs
  }

  /** What is asked of an act: an upload is a STOR or APPE that leaves a real size, one that
  moved no bytes did not make the file larger, and an APPE that gets refused is bearable. */
  ghost predicate Plausible(l: Limit, w: World, a: Act) {
    match a
    case Upload(v, p, size, total, ok, skip) =>
      && (v == Stor || v == Appe) && size >= 0.0 && total >= 0.0
      && (total == 0.0 ==> size <= SizeOf(w.fs, p))
      && (RefusedAppend(l, w, a) ==> Bearable(l, w, p))
    case Download(_, total, _) => total >= 0.0
    case Delete(_, _) => true
  }

  /** The size a PRE handler has cached is one the limit allows. */
  predicate CacheWithin(l: Limit, w: World) { 0.0 <= w.sess.disk <= l.bytesIn }

  /** The upload column after a charge that may be taken back, when the tally covers the
  file: the floor is never touched. */
  lemma CoveredSettlement(l: Limit, t: Tally, c: Increment, failedStore: bool, old_: real)
    requires l.bytesIn > 0.0 && NonNegative(t) && BytesInWithin(l, t) && c.bytesXfer >= 0.0
    requires 0.0 <= old_ <= t.bytesIn && c.bytesIn >= -old_
    ensures var end := Settled(l, t, c, failedStore, true);
            && end.bytesIn == t.bytesIn + (if Overrun(l, Charged(l, t, c, failedStore)) then 0.0 else c.bytesIn)
            && end.bytesIn <= l.bytesIn
  {
  }

  lemma {:induction false} SizeWithinUsage(fs: map<Path, real>, p: Path)
    requires forall q :: q in fs ==> fs[q] >= 0.0
    ensures 0.0 <= SizeOf(fs, p) <= Usage(fs)
  {
    UsageNonNegative(fs);
    if p in fs {
      UsageWithout(fs, p);
      UsageNonNegative(fs - {p});
    }
  }

  /** The upload column after an upload: unchanged if the file was removed, else moved by
  the file's growth; within the limit either way. */
  lemma UploadColumn(l: Limit, w: World, a: Act)
    requires l.kind == Hard && l.bytesIn > 0.0 && a.Upload? && Plausible(l, w, a) && !RefusedAppend(l, w, a)
    requires Covered(w) && BytesInWithin(l, w.sess.tally)
    ensures var e := UploadEnv(l, w, a);
            var s1 := Pre(l, w.sess, a.verb, e);
            var done := a.ok && !Denied(l, w.sess.tally, a.verb);
            var settled := (a.verb == Stor && e.skip) || Removes(l, s1, a.verb, done, e);
            var t' := Do(l, w, a).sess.tally;
            && t'.bytesIn == w.sess.tally.bytesIn + (if settled then 0.0 else UploadCharge(s1, a.verb, done, e).bytesIn)
            && t'.bytesIn <= l.bytesIn
  {
    var e := UploadEnv(l, w, a);
    var done := a.ok && !Denied(l, w.sess.tally, a.verb);
    SizeWithinUsage(w.fs, a.path);
    GrowthBounded(l, w, a);
    SettledUpload(l, Pre(l, w.sess, a.verb, e), a.verb, done, e, SizeOf(w.fs, a.path));
  }

  lemma GrowthBounded(l: Limit, w: World, a: Act)
    requires a.Upload? && Plausible(l, w, a) && !RefusedAppend(l, w, a)
    requires forall p :: p in w.fs ==> w.fs[p] >= 0.0
    ensures var e := UploadEnv(l, w, a);
            var done := a.ok && !Denied(l, w.sess.tally, a.verb);
            UploadCharge(Pre(l, w.sess, a.verb, e), a.verb, done, e).bytesIn >= -SizeOf(w.fs, a.path)
            || (a.verb == Stor && e.skip)
  {
  }

  lemma SettledUpload(l: Limit, s: Sess, v: Verb, ok: bool, e: Env, old_: real)
    requires l.kind == Hard && l.bytesIn > 0.0 && (v == Stor || v == Appe)
    requires !e.ignored && e.unlinked && e.total >= 0.0
    requires NonNegative(s.tally) && BytesInWithin(l, s.tally) && 0.0 <= old_ <= s.tally.bytesIn
    requires UploadCharge(s, v, ok, e).bytesIn >= -old_ || (v == Stor && e.skip)
    ensures var settled := (v == Stor && e.skip) || Removes(l, s, v, ok, e);
            var t' := Post(l, s, v, ok, e).tally;
            && t'.bytesIn == s.tally.bytesIn + (if settled then 0.0 else UploadCharge(s, v, ok, e).bytesIn)
            && t'.bytesIn <= l.bytesIn
  {
    if !(v == Stor && e.skip) {
      UploadOutcome(l, s, v, ok, e);
      CoveredSettlement(l, s.tally, UploadCharge(s, v, ok, e), v == Stor && !ok, old_);
    }
  }

  lemma UploadCovered(l: Limit, w: World, a: Act)
    requires l.kind == Hard && l.bytesIn > 0.0 && a.Upload? && Plausible(l, w, a)
    requires Covered(w) && BytesInWithin(l, w.sess.tally) && CacheWithin(l, w)
    ensures Covered(Do(l, w, a)) && BytesInWithin(l, Do(l, w, a).sess.tally)
  {
    if RefusedAppend(l, w, a) {
      RefusedAppendCoveredIff(l, w, a);
    } else {
      AdmittedUploadCovered(l, w, a);
    }
  }

  /** The upload column moves as much as the disk does, or more. */
  lemma UploadOnDisk(l: Limit, w: World, a: Act)
    requires l.kind == Hard && a.Upload? && Plausible(l, w, a) && !RefusedAppend(l, w, a)
    requires forall p :: p in w.fs ==> w.fs[p] >= 0.0
    ensures var e := UploadEnv(l, w, a);
            var s1 := Pre(l, w.sess, a.verb, e);
            var done := a.ok && !Denied(l, w.sess.tally, a.verb);
            var settled := (a.verb == Stor && e.skip) || Removes(l, s1, a.verb, done, e);
            && (forall p :: p in FilesAfter(l, w, a) ==> FilesAfter(l, w, a)[p] >= 0.0)
            && Usage(FilesAfter(l, w, a)) <= Usage(w.fs) + (if settled then 0.0 else UploadCharge(s1, a.verb, done, e).bytesIn)
  {
    SizeWithinUsage(w.fs, a.path);
    UsageOfUpdate(w.fs, a.path, a.size);
    UsageOfUpdate(Transferred(l, w, a), a.path, 0.0);
  }

  lemma UploadNonNegative(l: Limit, w: World, a: Act)
    requires a.Upload? && NonNegative(w.sess.tally) && (a.verb == Stor || a.verb == Appe)
    ensures NonNegative(SessAfter(l, w, a).tally)
  {
    var e := UploadEnv(l, w, a);
    var s1 := Pre(l, w.sess, a.verb, e);
    assert s1.tally == w.sess.tally;
    TallyStaysNonNegative(l, w.sess.tally, Writes(l, s1, a.verb, a.ok && Admitted(l, w.sess, a.verb, e), e));
  }

  lemma AdmittedUploadCovered(l: Limit, w: World, a: Act)
    requires l.kind == Hard && l.bytesIn > 0.0 && a.Upload? && Plausible(l, w, a) && !RefusedAppend(l, w, a)
    requires Covered(w) && BytesInWithin(l, w.sess.tally)
    ensures Covered(Do(l, w, a)) && BytesInWithin(l, Do(l, w, a).sess.tally)
  {
    UploadColumn(l, w, a);
    UploadOnDisk(l, w, a);
    UploadNonNegative(l, w, a);
    CoveredByParts(SessAfter(l, w, a), FilesAfter(l, w, a));
  }

  lemma {:induction false} CoveredByParts(sess: Sess, fs: map<Path, real>)
    requires (forall p :: p in fs ==> fs[p] >= 0.0) && NonNegative(sess.tally) && sess.tally.bytesIn >= Usage(fs)
    ensures Covered(World(sess, fs))
  {
  }

  /** What a refused APPE to an existing file comes to. */
  lemma RefusedAppendOutcome(l: Limit, w: World, a: Act)
    requires l.kind == Hard && RefusedAppend(l, w, a)
    ensures var c := StaleCharge(w, a.path);
            var over := Overrun(l, Charge(l, w.sess.tally, c));
            && Do(l, w, a).fs == (if over then w.fs - {a.path} else w.fs)
            && Do(l, w, a).sess == w.sess.(tally := if over then Charge(l, Charge(l, w.sess.tally, c), Undo(c, -1))
                                                    else Charge(l, w.sess.tally, c),
                                           pending := NoUpdate)
  {
    var e := UploadEnv(l, w, a);
    assert Pre(l, w.sess, Appe, e) == w.sess;
    assert UploadCharge(w.sess, Appe, false, e) == StaleCharge(w, a.path);
    UploadOutcome(l, w.sess, Appe, false, e);
  }

  /** A refused APPE leaves the tally covering the disk if and only if it is bearable; the
  tally stays within the limit in any case. */
  lemma RefusedAppendCoveredIff(l: Limit, w: World, a: Act)
    requires l.kind == Hard && l.bytesIn > 0.0 && RefusedAppend(l, w, a)
    requires Covered(w) && BytesInWithin(l, w.sess.tally) && CacheWithin(l, w)
    ensures Covered(Do(l, w, a)) <==> Bearable(l, w, a.path)
    ensures BytesInWithin(l, Do(l, w, a).sess.tally)
  {
    RefusedAppendOutcome(l, w, a);
    SizeWithinUsage(w.fs, a.path);
    UsageNonNegative(w.fs);
    UsageOfUpdate(w.fs, a.path, 0.0);
  }

  lemma OtherActsCovered(l: Limit, w: World, a: Act)
    requires l.bytesIn > 0.0 && !a.Upload? && Plausible(l, w, a)
    requires Covered(w) && BytesInWithin(l, w.sess.tally)
    ensures Covered(Do(l, w, a)) && BytesInWithin(l, Do(l, w, a).sess.tally)
  {
    var v := if a.Download? then Retr else Dele;
    var e := if a.Download? then EnvOf(w.fs, w.fs, a.path, a.total, false) else EnvOf(w.fs, w.fs - {a.path}, a.path, 0.0, false);
    var s1 := Pre(l, w.sess, v, e);
    var done := a.ok && Admitted(l, w.sess, v, e);
    ShortWrites(l, s1, v, done, e);
    TallyStaysNonNegative(l, w.sess.tally, Writes(l, s1, v, done, e));
    SizeWithinUsage(w.fs, a.path);
    UsageOfUpdate(w.fs, a.path, 0.0);
  }

  /** Every act leaves a cached size that the limit allows. */
  lemma CacheStaysWithin(l: Limit, w: World, a: Act)
    requires l.bytesIn > 0.0 && Covered(w) && BytesInWithin(l, w.sess.tally) && CacheWithin(l, w)
    ensures CacheWithin(l, Do(l, w, a))
  {
    SizeWithinUsage(w.fs, a.path);
  }

  function DoAll(l: Limit, w: World, acts: seq<Act>): World
    decreases acts
  {
    if acts == [] then w else DoAll(l, Do(l, w, acts[0]), acts[1..])
  }

  ghost predicate AllPlausible(l: Limit, w: World, acts: seq<Act>)
    decreases acts
  {
    acts == [] || (Plausible(l, w, acts[0]) && AllPlausible(l, Do(l, w, acts[0]), acts[1..]))
  }

  lemma {:induction false} CoveredAlongRun(l: Limit, w: World, acts: seq<Act>)
    requires l.kind == Hard && l.bytesIn > 0.0 && AllPlausible(l, w, acts)
    requires Covered(w) && BytesInWithin(l, w.sess.tally) && CacheWithin(l, w)
    ensures Covered(DoAll(l, w, acts)) && BytesInWithin(l, DoAll(l, w, acts).sess.tally) && CacheWithin(l, DoAll(l, w, acts))
    decreases acts
  {
    if acts != [] {
      CacheStaysWithin(l, w, acts[0]);
      if acts[0].Upload? {
        UploadCovered(l, w, acts[0]);
      } else {
        OtherActsCovered(l, w, acts[0]);
      }
      CoveredAlongRun(l, Do(l, w, acts[0]), acts[1..]);
    }
  }

  /** The promise of a hard upload limit: if the tally covers what is on disk to begin with,
  then after any run of commands the files on disk are within the limit. */
  lemma {:induction false} HardLimitBoundsDisk(l: Limit, w: World, acts: seq<Act>)
    requires l.kind == Hard && l.bytesIn > 0.0 && AllPlausible(l, w, acts)
    requires Covered(w) && BytesInWithin(l, w.sess.tally) && CacheWithin(l, w)
    ensures Usage(DoAll(l, w, acts).fs) <= l.bytesIn
  {
    CoveredAlongRun(l, w, acts);
  }

  // ---------------------------------------------------------------------------
  // Refused uploads

  /** A STOR that is admitted, completes and does not overrun. */
  lemma PlainStore(l: Limit, w: World, p: Path, size: real)
    requires l.kind == Hard && l.bytesIn > 0.0 && l.bytesXfer <= 0.0 && l.filesIn == 0 && l.filesXfer == 0
    requires size > 0.0 && NonNegative(w.sess.tally) && !BytesFull(l.bytesIn, w.sess.tally.bytesIn)
    requires 0.0 <= w.sess.tally.bytesIn + size - SizeOf(w.fs, p) <= l.bytesIn
    ensures Do(l, w, Upload(Stor, p, size, size, true, false)) ==
            World(w.sess.(tally := w.sess.tally.(bytesIn := w.sess.tally.bytesIn + size - SizeOf(w.fs, p)),
                          disk := SizeOf(w.fs, p), pending := NoUpdate),
                  w.fs[p := size])
    ensures Plausible(l, w, Upload(Stor, p, size, size, true, false))
  {
    var a := Upload(Stor, p, size, size, true, false);
    var e := UploadEnv(l, w, a);
    var s1 := Pre(l, w.sess, Stor, e);
    var c := UploadCharge(s1, Stor, true, e);
    assert s1 == w.sess.(disk := SizeOf(w.fs, p), pending := WriteUpdate);
    assert c.bytesIn == size - SizeOf(w.fs, p);
    UploadOutcome(l, s1, Stor, true, e);
    assert Charge(l, w.sess.tally, c) == w.sess.tally.(bytesIn := w.sess.tally.bytesIn + size - SizeOf(w.fs, p));
  }

  const SMALL_LIMIT := Limit(false, Hard, 10.0, 0.0, 0.0, 0, 0, 0)

  const EMPTY_WORLD := World(Sess(Tally(0.0, 0.0, 0.0, 0, 0, 0), NoUpdate, 0.0, false), map[])

  /** Three ordinary uploads from an empty directory, the last one over an existing file. */
  const STORES := [Upload(Stor, "f", 2.0, 2.0, true, false),
                   Upload(Stor, "g", 7.0, 7.0, true, false),
                   Upload(Stor, "g", 8.0, 8.0, true, false)]

  const FULL_WORLD := World(Sess(Tally(10.0, 0.0, 0.0, 0, 0, 0), NoUpdate, 7.0, false), map["f" := 2.0, "g" := 8.0])

  /** They fill the limit, and leave the size of the file before in the cache. */
  lemma StoresFillLimit()
    ensures AllPlausible(SMALL_LIMIT, EMPTY_WORLD, STORES) && DoAll(SMALL_LIMIT, EMPTY_WORLD, STORES) == FULL_WORLD
  {
    var l, w := SMALL_LIMIT, EMPTY_WORLD;
    var w1 := World(Sess(Tally(2.0, 0.0, 0.0, 0, 0, 0), NoUpdate, 0.0, false), map["f" := 2.0]);
    var w2 := World(Sess(Tally(9.0, 0.0, 0.0, 0, 0, 0), NoUpdate, 0.0, false), map["f" := 2.0, "g" := 7.0]);
    PlainStore(l, w, "f", 2.0);
    PlainStore(l, w1, "g", 7.0);
    PlainStore(l, w2, "g", 8.0);
    assert map[]["f" := 2.0] == map["f" := 2.0];
    assert w1.fs["g" := 7.0] == w2.fs && w2.fs["g" := 8.0] == FULL_WORLD.fs;
    ThreeActs(l, w, STORES[0], w1, STORES[1], w2, STORES[2], FULL_WORLD);
  }

  lemma {:induction false} ThreeActs(l: Limit, w: World, a: Act, w1: World, b: Act, w2: World, c: Act, w3: World)
    requires Do(l, w, a) == w1 && Do(l, w1, b) == w2 && Do(l, w2, c) == w3
    requires Plausible(l, w, a) && Plausible(l, w1, b) && Plausible(l, w2, c)
    ensures AllPlausible(l, w, [a, b, c]) && DoAll(l, w, [a, b, c]) == w3
  {
    assert [a, b, c][1..] == [b, c] && [b, c][1..] == [c] && [c][1..] == [];
    assert AllPlausible(l, w3, []) && AllPlausible(l, w2, [c]) && AllPlausible(l, w1, [b, c]);
    assert DoAll(l, w2, [c]) == w3 && DoAll(l, w1, [b, c]) == w3;
  }

  lemma FullUsage()
    ensures Usage(FULL_WORLD.fs) == 10.0
  {
    var fs := FULL_WORLD.fs;
    UsageWithout(fs, "f");
    assert fs - {"f"} == map["g" := 8.0];
    UsageWithout(map["g" := 8.0], "g");
    assert map["g" := 8.0] - {"g"} == map[];
  }

  lemma UnbearableAppend() returns (append: Act)
    ensures Covered(FULL_WORLD) && RefusedAppend(SMALL_LIMIT, FULL_WORLD, append)
    ensures !Covered(Do(SMALL_LIMIT, FULL_WORLD, append))
  {
    append := Upload(Appe, "f", 2.0, 0.0, false, false);
    FullUsage();
    RefusedAppendCoveredIff(SMALL_LIMIT, FULL_WORLD, append);
  }

  /** After those, a refused APPE to the other file puts the tally below what is on disk. */
  lemma RefusedAppendUncovers() returns (append: Act)
    ensures RefusedAppend(SMALL_LIMIT, DoAll(SMALL_LIMIT, EMPTY_WORLD, STORES), append)
    ensures Covered(DoAll(SMALL_LIMIT, EMPTY_WORLD, STORES))
    ensures !Covered(Do(SMALL_LIMIT, DoAll(SMALL_LIMIT, EMPTY_WORLD, STORES), append))
  {
    StoresFillLimit();
    append := UnbearableAppend();
  }

  /** And a refused APPE to the file that has just grown deletes it. */
  lemma RefusedAppendRemovesFile() returns (append: Act)
    ensures RefusedAppend(SMALL_LIMIT, DoAll(SMALL_LIMIT, EMPTY_WORLD, STORES), append)
    ensures append.path !in Do(SMALL_LIMIT, DoAll(SMALL_LIMIT, EMPTY_WORLD, STORES), append).fs
  {
    append := Upload(Appe, "g", 8.0, 0.0, false, false);
    StoresFillLimit();
    RefusedAppendKeepsFileIff(SMALL_LIMIT, FULL_WORLD, append);
  }

  lemma RefusedStoreOutcome(l: Limit, w: World, a: Act)
    requires a.Upload? && a.verb == Stor && Denied(l, w.sess.tally, Stor)
    ensures FilesAfter(l, w, a) == if l.kind == Hard && Overrun(l, w.sess.tally) then w.fs - {a.path} else w.fs
  {
    var e := UploadEnv(l, w, a);
    assert e.total == 0.0 && !e.skip && !e.ignored && e.unlinked;
    assert Pre(l, w.sess, Stor, e) == w.sess;
    NothingMoved(l, w.sess, e);
  }

  /** A failed STOR that moved nothing charges nothing. */
  lemma NothingMoved(l: Limit, s: Sess, e: Env)
    requires e.total == 0.0
    ensures Charged(l, s.tally, UploadCharge(s, Stor, false, e), true) == s.tally
  {
  }

  /** A refused STOR leaves the file of that name alone if and only if the limit is soft or
  the tally is not over a byte limit already; it touches no other file. */
  lemma RefusedStoreKeepsFileIff(l: Limit, w: World, a: Act)
    requires a.Upload? && a.verb == Stor && Denied(l, w.sess.tally, Stor) && a.path in w.fs
    ensures a.path in Do(l, w, a).fs <==> l.kind != Hard || !Overrun(l, w.sess.tally)
    ensures Do(l, w, a).fs == w.fs || Do(l, w, a).fs == w.fs - {a.path}
  {
    RefusedStoreOutcome(l, w, a);
    var gone := w.fs - {a.path};
    var fs' := FilesAfter(l, w, a);
    assert a.path !in gone;
    assert Do(l, w, a).fs == fs';
  }

  lemma OverByDownload(l: Limit, t: Tally, total: real)
    requires l.bytesXfer > 0.0 && t.bytesXfer + total > l.bytesXfer && total >= 0.0 && !BytesFull(l.bytesIn, t.bytesIn)
    ensures var t1 := Charge(l, t, Increment(0.0, total, total, 0, 1, 1)); Overrun(l, t1) && Denied(l, t1, Stor)
  {
  }

  /** A download that carries the transfer tally over a hard limit has every later STOR refused,
  and a refused STOR to an existing file deletes that file. */
  lemma StoreAfterOverrunRemoves(l: Limit, w: World, p: Path, q: Path, total: real)
    requires l.kind == Hard && l.bytesXfer > 0.0 && !Denied(l, w.sess.tally, Retr) && p in w.fs
    requires total >= 0.0 && w.sess.tally.bytesXfer + total > l.bytesXfer && !BytesFull(l.bytesIn, w.sess.tally.bytesIn)
    ensures var w1 := Do(l, w, Download(q, total, true));
            && w1.fs == w.fs && Denied(l, w1.sess.tally, Stor)
            && p !in Do(l, w1, Upload(Stor, p, 0.0, 0.0, false, false)).fs
  {
    DownloadOutcome(l, w, q, total);
    OverByDownload(l, w.sess.tally, total);
    RefusedStoreKeepsFileIff(l, Do(l, w, Download(q, total, true)), Upload(Stor, p, 0.0, 0.0, false, false));
  }

  /** It happens: a transfer tally can pass its limit by downloads, and a STOR that is then
  refused deletes the existing file. */
  lemma RefusedStoreRemovesFile() returns (l: Limit, w: World, get: Act, put: Act)
    ensures l.kind == Hard && Covered(w) && BytesInWithin(l, w.sess.tally) && "f" in w.fs
    ensures var w1 := Do(l, w, get);
            get.Download? && "f" in w1.fs && Denied(l, w1.sess.tally, Stor) && "f" !in Do(l, w1, put).fs
  {
    l := Limit(false, Hard, 10.0, 0.0, 10.0, 0, 0, 0);
    w := World(Sess(Tally(6.0, 0.0, 6.0, 0, 0, 0), NoUpdate, 0.0, false), map["f" := 6.0]);
    UsageWithout(w.fs, "f");
    assert w.fs - {"f"} == map[];
    get := Download("f", 6.0, true);
    put := Upload(Stor, "f", 0.0, 0.0, false, false);
    StoreAfterOverrunRemoves(l, w, "f", "f", 6.0);
  }

  /** A completed download charges its bytes and a file, and leaves the files alone. */
  lemma DownloadOutcome(l: Limit, w: World, p: Path, total: real)
    requires !Denied(l, w.sess.tally, Retr)
    ensures Do(l, w, Download(p, total, true)).fs == w.fs
    ensures Do(l, w, Download(p, total, true)).sess.tally == Charge(l, w.sess.tally, Increment(0.0, total, total, 0, 1, 1))
  {
    ChargeAll1(l, w.sess.tally, Increment(0.0, total, total, 0, 1, 1));
  }

  /** A refused APPE leaves its file alone if and only if the limit is soft or the file's size
  against the cached one does not carry the tally over a byte limit. */
  lemma RefusedAppendKeepsFileIff(l: Limit, w: World, a: Act)
    requires RefusedAppend(l, w, a)
    ensures var t := Charge(l, w.sess.tally, StaleCharge(w, a.path));
            a.path in Do(l, w, a).fs <==> l.kind != Hard || !Overrun(l, t)
    ensures Do(l, w, a).fs == w.fs || Do(l, w, a).fs == w.fs - {a.path}
  {
    var e := UploadEnv(l, w, a);
    assert Pre(l, w.sess, Appe, e) == w.sess;
    assert UploadCharge(w.sess, Appe, false, e) == StaleCharge(w, a.path);
  }
}
