/** Upload/download ratios: transfers are admitted against a credit computed from what was
stored and fetched. Byte totals and byte credit are kept in units of 1024 bytes.
*/
module RatioCredit {

  import opened Optional

  datatype Ratio = Ratio(enable: bool, frate: int, fcred: int, brate: int, bcred: int)

  datatype Totals = Totals(fstor: nat, fretr: nat, bstor: nat, bretr: nat)

  /** A rate of n allows n for each one stored, a rate of -n one for every n stored. */
  function Credit(rate: int, initial: int, stored: nat, fetched: nat): int {
    if rate >= 0 then rate * stored + initial - fetched else stored / -rate + initial - fetched
  }

  function Files(r: Ratio, t: Totals): int { Credit(r.frate, r.fcred, t.fstor, t.fretr) }

  function Bytes(r: Ratio, t: Totals): int { Credit(r.brate, r.bcred, t.bstor, t.bretr) }

  const INT_MOD := 0x1_0000_0000
  const INT_LIMIT := 0x8000_0000

  /** Conversion of a file size to a 32-bit int. */
  function ToInt(x: nat): int {
    var m := x % INT_MOD;
    if m < INT_LIMIT then m else m - INT_MOD
  }

  /** C division by 1024, which rounds toward zero. */
  function Kilo(x: int): int { if x >= 0 then x / 1024 else -(-x / 1024) }

  /** The size the byte check works with. */
  function Seen(size: Option<nat>): int { if size.Some? then ToInt(size.value) else 0 }

  /** The byte check of `pre_cmd_retr`; a file that cannot be examined counts as empty. */
  predicate Affordable(bytes: int, size: Option<nat>) {
    bytes - Kilo(Seen(size)) >= 0
  }

  predicate Admits(r: Ratio, t: Totals, size: Option<nat>) {
    || !r.enable
    || ((r.frate != 0 ==> Files(r, t) >= 1) && (r.brate != 0 ==> Affordable(Bytes(r, t), size)))
  }

  /** STOR, or RETR with the size found before it; `total` is what was transferred by a
  command that completed. */
  datatype Cmd = Stor(total: nat) | Retr(size: Option<nat>, total: nat) | Failing

  function Do(r: Ratio, t: Totals, c: Cmd): Totals {
    match c
    case Stor(total) => t.(fstor := t.fstor + 1, bstor := t.bstor + total / 1024)
    case Retr(size, total) =>
      if Admits(r, t, size) then t.(fretr := t.fretr + 1, bretr := t.bretr + total / 1024) else t
    case Failing => t
  }

  function Run(r: Ratio, t: Totals, cs: seq<Cmd>): Totals {
    if |cs| == 0 then t else Do(r, Run(r, t, cs[..|cs| - 1]), cs[|cs| - 1])
  }

  /** No enforced credit is overdrawn. */
  predicate InCredit(r: Ratio, t: Totals) {
    (r.frate != 0 ==> Files(r, t) >= 0) && (r.brate != 0 ==> Bytes(r, t) >= 0)
  }

  /** No more kilobytes are transferred than the check saw. */
  predicate Honest(c: Cmd) { c.Retr? ==> c.total / 1024 <= Max0(Kilo(Seen(c.size))) }

  function Max0(x: int): int { if x < 0 then 0 else x }

  /** That is exactly what the check needs in order to cover a transfer on any credit. */
  lemma HonestIff(size: Option<nat>, total: nat)
    ensures Honest(Retr(size, total)) <==> forall bytes: nat :: Affordable(bytes, size) ==> total / 1024 <= bytes
  {
    var enough := Max0(Kilo(Seen(size)));
    assert Affordable(enough, size);
  }

  /** It holds of a file whose size fits an int and bounds the transfer, and of one that
  could not be examined as long as less than a kilobyte of it is transferred. */
  lemma BoundedTransferIsHonest(size: Option<nat>, total: nat)
    requires match size case Some(n) => total <= n < INT_LIMIT case None => total < 1024
    ensures Honest(Retr(size, total))
  {
    if size.Some? {
      DivGrows(total, size.value, 1024);
    }
  }

  lemma MulReflects(k: nat, x: int, y: int)
    requires k * x < k * y
    ensures x < y
  {
    assert k * (y - x) > 0;
  }

  lemma DivGrows(a: nat, b: nat, k: nat)
    requires a <= b && k > 0
    ensures a / k <= b / k
  {
    var p, q := a / k, b / k;
    assert k * p <= a && b < k * q + k == k * (q + 1);
    MulReflects(k, p, q + 1);
  }

  /** Storing never lowers a credit, for either kind of rate. */
  lemma StoringEarns(rate: int, initial: int, stored: nat, more: nat, fetched: nat)
    ensures Credit(rate, initial, stored + more, fetched) >= Credit(rate, initial, stored, fetched)
  {
    if rate >= 0 {
      assert rate * (stored + more) == rate * stored + rate * more;
    } else {
      DivGrows(stored, stored + more, -rate);
    }
  }

  lemma FetchingCosts(rate: int, initial: int, stored: nat, fetched: nat, more: nat)
    ensures Credit(rate, initial, stored, fetched + more) == Credit(rate, initial, stored, fetched) - more
  {
  }

  lemma CommandKeepsCredit(r: Ratio, t: Totals, c: Cmd)
    requires r.enable && InCredit(r, t) && Honest(c)
    ensures InCredit(r, Do(r, t, c))
  {
    match c {
      case Stor(total) =>
        StoringEarns(r.frate, r.fcred, t.fstor, 1, t.fretr);
        StoringEarns(r.brate, r.bcred, t.bstor, total / 1024, t.bretr);
      case Retr(size, total) =>
        FetchingCosts(r.frate, r.fcred, t.fstor, t.fretr, 1);
        FetchingCosts(r.brate, r.bcred, t.bstor, t.bretr, total / 1024);
        if Admits(r, t, size) && r.brate != 0 {
          HonestIff(size, total);
        }
      case Failing =>
    }
  }

  /** In every run, multiplying and dividing ratios alike, no enforced credit is overdrawn. */
  lemma {:induction false} CreditStaysNonNegative(r: Ratio, t: Totals, cs: seq<Cmd>)
    requires r.enable && InCredit(r, t) && forall i :: 0 <= i < |cs| ==> Honest(cs[i])
    ensures InCredit(r, Run(r, t, cs))
  {
    if |cs| > 0 {
      CreditStaysNonNegative(r, t, cs[..|cs| - 1]);
      CommandKeepsCredit(r, Run(r, t, cs[..|cs| - 1]), cs[|cs| - 1]);
    }
  }

  // ---------------------------------------------------------------------------
  // The rate

  /** What storing has earned: under a rate of -n one for every n stored and nothing for less,
  under a rate of n exactly n for each one stored. */
  lemma {:induction false} EarnedByRate(rate: int, initial: int, stored: nat, fetched: nat)
    ensures var earned := Credit(rate, initial, stored, fetched) - initial + fetched;
            && (rate < 0 ==> earned * -rate <= stored < (earned + 1) * -rate)
            && (rate >= 0 ==> earned == Repeated(rate, stored))
  {
    if rate < 0 {
      var n, q := -rate, stored / -rate;
      assert stored == n * q + stored % n;
      assert (q + 1) * n == q * n + n;
    } else {
      RepeatedIsProduct(rate, stored);
    }
  }

  /** n, once for each of the k stored. */
  function Repeated(n: int, k: nat): int { if k == 0 then 0 else Repeated(n, k - 1) + n }

  lemma {:induction false} RepeatedIsProduct(n: int, k: nat)
    ensures Repeated(n, k) == n * k
  {
    if k > 0 {
      RepeatedIsProduct(n, k - 1);
      assert n * k == n * (k - 1) + n;
    }
  }

  /** A credit that is not overdrawn keeps what was fetched, less the initial credit, within
  the rate. */
  lemma InCreditIsWithinRate(rate: int, initial: int, stored: nat, fetched: nat)
    requires Credit(rate, initial, stored, fetched) >= 0
    ensures rate < 0 ==> (fetched - initial) * -rate <= stored
    ensures rate >= 0 ==> fetched - initial <= rate * stored
  {
    EarnedByRate(rate, initial, stored, fetched);
    if rate < 0 {
      var earned, n := Credit(rate, initial, stored, fetched) - initial + fetched, -rate;
      assert earned * n - (fetched - initial) * n == (earned - (fetched - initial)) * n >= 0;
    } else {
      RepeatedIsProduct(rate, stored);
    }
  }

  predicate FilesInCredit(r: Ratio, t: Totals) { r.frate != 0 ==> Files(r, t) >= 0 }

  lemma {:induction false} FilesStayInCredit(r: Ratio, t: Totals, cs: seq<Cmd>)
    requires r.enable && FilesInCredit(r, t)
    ensures FilesInCredit(r, Run(r, t, cs))
  {
    if |cs| > 0 {
      var was, c := Run(r, t, cs[..|cs| - 1]), cs[|cs| - 1];
      FilesStayInCredit(r, t, cs[..|cs| - 1]);
      if c.Stor? {
        StoringEarns(r.frate, r.fcred, was.fstor, 1, was.fretr);
      }
    }
  }

  /** In every run the files fetched beyond the initial credit stay within the rate: n of them
  take n times as many stored under a rate of -n, and no more than n come on each one stored
  under a rate of n. */
  lemma {:induction false} FilesFetchedWithinRate(r: Ratio, t: Totals, cs: seq<Cmd>)
    requires r.enable && r.frate != 0 && FilesInCredit(r, t)
    ensures var end := Run(r, t, cs);
            && (r.frate < 0 ==> (end.fretr - r.fcred) * -r.frate <= end.fstor)
            && (r.frate > 0 ==> end.fretr - r.fcred <= r.frate * end.fstor)
  {
    FilesStayInCredit(r, t, cs);
    var end := Run(r, t, cs);
    InCreditIsWithinRate(r.frate, r.fcred, end.fstor, end.fretr);
  }

  /** So do the kilobytes, if no transfer carries more than its check saw. */
  lemma {:induction false} BytesFetchedWithinRate(r: Ratio, t: Totals, cs: seq<Cmd>)
    requires r.enable && r.brate != 0 && InCredit(r, t) && forall i :: 0 <= i < |cs| ==> Honest(cs[i])
    ensures var end := Run(r, t, cs);
            && (r.brate < 0 ==> (end.bretr - r.bcred) * -r.brate <= end.bstor)
            && (r.brate > 0 ==> end.bretr - r.bcred <= r.brate * end.bstor)
  {
    CreditStaysNonNegative(r, t, cs);
    var end := Run(r, t, cs);
    InCreditIsWithinRate(r.brate, r.bcred, end.bstor, end.bretr);
  }

  /** A download of a file whose size fits an int is refused if and only if fetching it would
  overdraw an enforced credit. */
  lemma RefusedIffOverdrawn(r: Ratio, t: Totals, size: nat)
    requires r.enable && size < INT_LIMIT
    ensures Admits(r, t, Some(size))
            <==> (r.frate != 0 ==> Files(r, t.(fretr := t.fretr + 1)) >= 0)
                 && (r.brate != 0 ==> Bytes(r, t.(bretr := t.bretr + size / 1024)) >= 0)
  {
    FetchingCosts(r.frate, r.fcred, t.fstor, t.fretr, 1);
    FetchingCosts(r.brate, r.bcred, t.bstor, t.bretr, size / 1024);
  }

  /** A file that cannot be examined is let through like an empty one. */
  lemma UnexaminedCountsAsEmpty(r: Ratio, t: Totals)
    ensures Admits(r, t, None) <==> Admits(r, t, Some(0))
    ensures r.enable ==> (Admits(r, t, None) <==> (r.frate != 0 ==> Files(r, t) > 0) && (r.brate != 0 ==> Bytes(r, t) >= 0))
  {
    FetchingCosts(r.frate, r.fcred, t.fstor, t.fretr, 1);
  }

  function Stored(cs: seq<Cmd>): (nat, nat) {
    if |cs| == 0 then (0, 0)
    else
      var (files, kilo) := Stored(cs[..|cs| - 1]);
      if cs[|cs| - 1].Stor? then (files + 1, kilo + cs[|cs| - 1].total / 1024) else (files, kilo)
  }

  function Fetched(r: Ratio, t: Totals, cs: seq<Cmd>): (nat, nat) {
    if |cs| == 0 then (0, 0)
    else
      var (files, kilo) := Fetched(r, t, cs[..|cs| - 1]);
      var c := cs[|cs| - 1];
      if c.Retr? && Admits(r, Run(r, t, cs[..|cs| - 1]), c.size) then (files + 1, kilo + c.total / 1024) else (files, kilo)
  }

  /** The totals of a run are the initial ones plus what its uploads stored and its admitted
  downloads fetched. */
  lemma {:induction false} TotalsCountTransfers(r: Ratio, t: Totals, cs: seq<Cmd>)
    ensures var s, f := Stored(cs), Fetched(r, t, cs);
            Run(r, t, cs) == Totals(t.fstor + s.0, t.fretr + f.0, t.bstor + s.1, t.bretr + f.1)
  {
    if |cs| > 0 {
      TotalsCountTransfers(r, t, cs[..|cs| - 1]);
    }
  }

  /** The byte check covers a file for every amount of credit if and only if the file's size
  fits the int it is converted to. */
  lemma CheckIsSoundIff(size: nat)
    ensures (forall bytes: nat :: Affordable(bytes, Some(size)) ==> size / 1024 <= bytes) <==> size < INT_LIMIT
  {
    if size >= INT_LIMIT {
      DivGrows(INT_LIMIT, size, 1024);
      assert Affordable(2097151, Some(size));
    }
  }

  /** A 4 GB file is let through on no credit at all, and overdraws it. */
  lemma LargeFileOverdraws() returns (r: Ratio, t: Totals)
    ensures InCredit(r, t) && !InCredit(r, Do(r, t, Retr(Some(INT_MOD), INT_MOD)))
  {
    r, t := Ratio(true, 0, 0, 1, 0), Totals(0, 0, 0, 0);
    assert ToInt(INT_MOD) == 0;
    assert INT_MOD / 1024 == 4194304;
  }

  // ---------------------------------------------------------------------------
  // The session's record

  class Stats {
    var enable: bool
    var fstor: nat
    var fretr: nat
    var bstor: nat
    var bretr: nat
    var frate: int
    var fcred: int
    var brate: int
    var bcred: int
    var files: int
    var bytes: int

    function Rates(): Ratio
      reads this
    {
      Ratio(enable, frate, fcred, brate, bcred)
    }

    function View(): Totals
      reads this
    {
      Totals(fstor, fretr, bstor, bretr)
    }

    /** The cached credits are those of the totals. */
    ghost predicate Fresh()
      reads this
    {
      files == Files(Rates(), View()) && bytes == Bytes(Rates(), View())
    }

    constructor (r: Ratio)
      ensures Rates() == r && View() == Totals(0, 0, 0, 0) && Fresh()
    {
      enable, frate, fcred, brate, bcred := r.enable, r.frate, r.fcred, r.brate, r.bcred;
      fstor, fretr, bstor, bretr := 0, 0, 0, 0;
      files, bytes := r.fcred, r.bcred;
    }

    /** `update_ratios` with the configured ratio. */
    method UpdateRatios(r: Ratio)
      modifies this
      ensures Rates() == r && View() == old(View()) && Fresh()
      ensures frate < 0 ==> (files - fcred + fretr) * -frate <= fstor < (files - fcred + fretr + 1) * -frate
      ensures brate < 0 ==> (bytes - bcred + bretr) * -brate <= bstor < (bytes - bcred + bretr + 1) * -brate
    {
      EarnedByRate(r.frate, r.fcred, fstor, fretr);
      EarnedByRate(r.brate, r.bcred, bstor, bretr);
      enable, frate, fcred, brate, bcred := r.enable, r.frate, r.fcred, r.brate, r.bcred;
      if frate >= 0 {
        files := frate * fstor + fcred - fretr;
      } else {
        files := fstor / (frate * -1) + fcred - fretr;
      }
      if brate >= 0 {
        bytes := brate * bstor + bcred - bretr;
      } else {
        bytes := bstor / (brate * -1) + bcred - bretr;
      }
    }

    /** `pre_cmd_retr` */
    method PreRetr(r: Ratio, size: Option<nat>) returns (ok: bool)
      modifies this
      ensures Rates() == r && View() == old(View()) && Fresh()
      ensures ok <==> Admits(r, View(), size)
    {
      UpdateRatios(r);
      if !enable || (frate == 0 && brate == 0) {
        return true;
      }
      if frate != 0 && files < 1 {
        return false;
      }
      if brate != 0 {
        var fsize := if size.Some? then ToInt(size.value) else 0;
        if bytes - Kilo(fsize) < 0 {
          return false;
        }
      }
      ok := true;
    }

    /** `ratio_post_retr` */
    method PostRetr(r: Ratio, size: Option<nat>, total: nat)
      requires Admits(r, View(), size)
      modifies this
      ensures Rates() == r && View() == Do(r, old(View()), Retr(size, total)) && Fresh()
    {
      fretr := fretr + 1;
      bretr := bretr + total / 1024;
      UpdateRatios(r);
    }

    /** `ratio_post_stor` */
    method PostStor(r: Ratio, total: nat)
      modifies this
      ensures Rates() == r && View() == Do(r, old(View()), Stor(total)) && Fresh()
    {
      fstor := fstor + 1;
      bstor := bstor + total / 1024;
      UpdateRatios(r);
    }
  }
}
