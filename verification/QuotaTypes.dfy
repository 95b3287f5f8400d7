/** Records of the quota tables and the arithmetic `quotatab_write` performs on them.

Byte counters are doubles in the source; they are exact reals here. File counters
are 32-bit unsigned integers and keep their wrap-around.
*/
module QuotaTypes {

  const UINT_MOD: int := 0x1_0000_0000

  type uint32 = n: int | 0 <= n < 0x1_0000_0000

  type int32 = n: int | -0x8000_0000 <= n < 0x8000_0000

  datatype LimitKind = Hard | Soft

  datatype Limit = Limit(
    perSession: bool,
    kind: LimitKind,
    bytesIn: real, bytesOut: real, bytesXfer: real,
    filesIn: uint32, filesOut: uint32, filesXfer: uint32)

  datatype Tally = Tally(
    bytesIn: real, bytesOut: real, bytesXfer: real,
    filesIn: uint32, filesOut: uint32, filesXfer: uint32)

  datatype Increment = Increment(
    bytesIn: real, bytesOut: real, bytesXfer: real,
    filesIn: int32, filesOut: int32, filesXfer: int32)

  /** The six columns that limits, tallies and increments have in common. */
  datatype Counter = BytesIn | BytesOut | BytesXfer | FilesIn | FilesOut | FilesXfer

  predicate CountsBytes(c: Counter) { c.BytesIn? || c.BytesOut? || c.BytesXfer? }

  function AvailOf(l: Limit, c: Counter): real {
    match c
    case BytesIn => l.bytesIn
    case BytesOut => l.bytesOut
    case BytesXfer => l.bytesXfer
    case FilesIn => l.filesIn as real
    case FilesOut => l.filesOut as real
    case FilesXfer => l.filesXfer as real
  }

  function UsedOf(t: Tally, c: Counter): real {
    match c
    case BytesIn => t.bytesIn
    case BytesOut => t.bytesOut
    case BytesXfer => t.bytesXfer
    case FilesIn => t.filesIn as real
    case FilesOut => t.filesOut as real
    case FilesXfer => t.filesXfer as real
  }

  function IncOf(i: Increment, c: Counter): real {
    match c
    case BytesIn => i.bytesIn
    case BytesOut => i.bytesOut
    case BytesXfer => i.bytesXfer
    case FilesIn => i.filesIn as real
    case FilesOut => i.filesOut as real
    case FilesXfer => i.filesXfer as real
  }

  function Max0(x: real): real { if x < 0.0 then 0.0 else x }

  /** A byte counter moves only under an active limit, and never below zero. */
  function AddBytes(avail: real, used: real, inc: real): real {
    if avail > 0.0 then Max0(used + inc) else used
  }

  /** A file counter moves only under an active limit; the underflow test looks at
  zero alone, so any other sum wraps around modulo 2^32. */
  function AddFiles(avail: uint32, used: uint32, inc: int32): uint32 {
    if avail == 0 then used
    else if used == 0 && inc < 0 then used
    else Wrapped(used + inc)
  }

  /** A sum of an unsigned and a signed 32-bit integer is out of range by one turn at most. */
  function Wrapped(n: int): uint32
    requires -UINT_MOD <= n < 2 * UINT_MOD
  {
    if n < 0 then n + UINT_MOD else if n >= UINT_MOD then n - UINT_MOD else n
  }

  function Charge(l: Limit, t: Tally, i: Increment): Tally {
    Tally(
      AddBytes(l.bytesIn, t.bytesIn, i.bytesIn),
      AddBytes(l.bytesOut, t.bytesOut, i.bytesOut),
      AddBytes(l.bytesXfer, t.bytesXfer, i.bytesXfer),
      AddFiles(l.filesIn, t.filesIn, i.filesIn),
      AddFiles(l.filesOut, t.filesOut, i.filesOut),
      AddFiles(l.filesXfer, t.filesXfer, i.filesXfer))
  }

  ghost predicate NonNegative(t: Tally) {
    t.bytesIn >= 0.0 && t.bytesOut >= 0.0 && t.bytesXfer >= 0.0
  }

  /** The file counter's underflow guard does its job exactly when the decrement does
  not reach past a non-zero count; otherwise the counter wraps to a huge value. */
  lemma FileGuardIsExact(avail: uint32, used: uint32, inc: int32)
    requires avail != 0 && used + inc < UINT_MOD
    ensures AddFiles(avail, used, inc) == (if used + inc < 0 then 0 else used + inc)
            <==> !(0 < used && used + inc < 0)
    ensures 0 < used && used + inc < 0 ==> AddFiles(avail, used, inc) == used + inc + UINT_MOD
  {
  }
}
