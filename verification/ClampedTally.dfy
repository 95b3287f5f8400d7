/** The long-run value of a byte tally.

A file table stores the clamped value itself. An SQL table only ever receives the
increment (`quotatab_deltas`) and adds it to the row. The first is therefore a walk
reflected at zero and the second the plain sum of the same increments.
*/
module ClampedTally {
  import opened QuotaTypes

  function Sum(incs: seq<real>): real {
    if incs == [] then 0.0 else Sum(incs[..|incs| - 1]) + incs[|incs| - 1]
  }

  /** Where the unclamped walk stands after k increments. */
  function Level(init: real, incs: seq<real>, k: nat): real
    requires k <= |incs|
  {
    init + Sum(incs[..k])
  }

  /** The byte column of a file table after a run of writes. */
  function FileColumn(avail: real, init: real, incs: seq<real>): real {
    if incs == [] then init
    else AddBytes(avail, FileColumn(avail, init, incs[..|incs| - 1]), incs[|incs| - 1])
  }

  /** The same column of an SQL table: each write adds the delta, which is the increment
  under an active limit and zero otherwise. */
  function SqlDelta(avail: real, inc: real): real { if avail > 0.0 then inc else 0.0 }

  function SqlColumn(avail: real, init: real, incs: seq<real>): real {
    if incs == [] then init
    else SqlColumn(avail, init, incs[..|incs| - 1]) + SqlDelta(avail, incs[|incs| - 1])
  }

  /** `low` is the lowest the unclamped walk gets after its first step, or zero if it
  never goes below zero. */
  ghost predicate IsLowest(init: real, incs: seq<real>, low: real) {
    && low <= 0.0
    && (forall k :: 1 <= k <= |incs| ==> low <= Level(init, incs, k))
    && (low == 0.0 || exists k :: 1 <= k <= |incs| && low == Level(init, incs, k))
  }

  lemma LevelOfPrefix(init: real, incs: seq<real>, n: nat, k: nat)
    requires k <= n <= |incs|
    ensures Level(init, incs[..n], k) == Level(init, incs, k)
  {
    assert incs[..n][..k] == incs[..k];
  }

  /** The reflection formula: a limited byte tally is the plain sum minus its lowest
  point, whatever the initial value once a write has happened. */
  lemma {:induction false} FileColumnIsReflectedWalk(avail: real, init: real, incs: seq<real>, low: real)
    requires avail > 0.0
    requires |incs| > 0 || init >= 0.0
    requires IsLowest(init, incs, low)
    ensures FileColumn(avail, init, incs) == Level(init, incs, |incs|) - low
  {
    var n := |incs|;
    if n == 0 {
      assert incs[..0] == [];
    } else {
      var rest := incs[..n - 1];
      assert incs[..n] == incs;
      forall k | 0 <= k <= n - 1
        ensures Level(init, rest, k) == Level(init, incs, k)
      {
        LevelOfPrefix(init, incs, n - 1, k);
      }
      if n == 1 {
        assert rest == [] && incs[..1] == incs;
        assert Sum(incs) == Sum(rest) + incs[0];
      } else {
        var before := LowestPoint(init, rest);
        FileColumnIsReflectedWalk(avail, init, rest, before);
        LowestStep(init, incs, before, low);
      }
    }
  }

  /** Every walk has a lowest point. */
  lemma {:induction false} LowestPoint(init: real, incs: seq<real>) returns (low: real)
    ensures IsLowest(init, incs, low)
  {
    if incs == [] {
      low := 0.0;
    } else {
      var n := |incs|;
      var before := LowestPoint(init, incs[..n - 1]);
      LowestOfPrefix(init, incs, before);
      low := if before <= Level(init, incs, n) then before else Level(init, incs, n);
    }
  }

  lemma LowestStep(init: real, incs: seq<real>, before: real, low: real)
    requires |incs| >= 1
    requires IsLowest(init, incs[..|incs| - 1], before)
    requires IsLowest(init, incs, low)
    ensures low == if before <= Level(init, incs, |incs|) then before else Level(init, incs, |incs|)
  {
    LowestOfPrefix(init, incs, before);
    if low < 0.0 {
      var k :| 1 <= k <= |incs| && low == Level(init, incs, k);
    }
  }

  /** The lowest point before the last increment, said of the whole walk. */
  lemma LowestOfPrefix(init: real, incs: seq<real>, before: real)
    requires |incs| >= 1
    requires IsLowest(init, incs[..|incs| - 1], before)
    ensures forall k :: 1 <= k < |incs| ==> before <= Level(init, incs, k)
    ensures before == 0.0 || exists k :: 1 <= k < |incs| && before == Level(init, incs, k)
  {
    var rest := incs[..|incs| - 1];
    forall k | 1 <= k < |incs|
      ensures before <= Level(init, incs, k)
    {
      LevelOfPrefix(init, incs, |incs| - 1, k);
      assert before <= Level(init, rest, k);
    }
    if before != 0.0 {
      var k :| 1 <= k <= |rest| && before == Level(init, rest, k);
      LevelOfPrefix(init, incs, |incs| - 1, k);
    }
  }

  lemma {:induction false} SqlColumnIsPlainSum(avail: real, init: real, incs: seq<real>)
    requires avail > 0.0
    ensures SqlColumn(avail, init, incs) == Level(init, incs, |incs|)
  {
    assert incs[..|incs|] == incs;
    if incs != [] {
      var rest := incs[..|incs| - 1];
      SqlColumnIsPlainSum(avail, init, rest);
      assert rest[..|rest|] == rest;
    }
  }

  /** For the same writes, the accumulating table never stands above the absolute one,
  and the two agree exactly when the walk never went below zero. */
  lemma {:induction false} SqlNeverExceedsFile(avail: real, init: real, incs: seq<real>)
    requires avail > 0.0
    requires |incs| > 0 || init >= 0.0
    ensures SqlColumn(avail, init, incs) <= FileColumn(avail, init, incs)
    ensures SqlColumn(avail, init, incs) == FileColumn(avail, init, incs)
            <==> forall k :: 1 <= k <= |incs| ==> Level(init, incs, k) >= 0.0
  {
    var low := LowestPoint(init, incs);
    FileColumnIsReflectedWalk(avail, init, incs, low);
    SqlColumnIsPlainSum(avail, init, incs);
  }

  /** Without an active limit neither table moves. */
  lemma {:induction false} UnlimitedColumnsStandStill(avail: real, init: real, incs: seq<real>)
    requires avail <= 0.0
    ensures FileColumn(avail, init, incs) == init == SqlColumn(avail, init, incs)
  {
    if incs != [] {
      UnlimitedColumnsStandStill(avail, init, incs[..|incs| - 1]);
    }
  }
}
