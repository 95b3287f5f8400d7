/** Bytes, and the session's raw byte counters: 64-bit integers that may wrap on the way. */
module RawCounter {
  type Byte = x: int | 0 <= x < 256

  const RAW_MOD := 0x1_0000_0000_0000_0000

  function Wrap(x: int): (r: nat)
    ensures r < RAW_MOD
  {
    x % RAW_MOD
  }

  /** Wrapping early or late makes no difference. */
  lemma WrapAgain(x: int, d: int)
    ensures Wrap(Wrap(x) + d) == Wrap(x + d)
  {
    var q := x / RAW_MOD;
    assert x == q * RAW_MOD + Wrap(x);
    WrapShift(Wrap(x) + d, q);
  }

  lemma WrapShift(y: int, q: int)
    ensures Wrap(y + q * RAW_MOD) == Wrap(y)
  {
    var p := y / RAW_MOD;
    assert y + q * RAW_MOD == (p + q) * RAW_MOD + Wrap(y);
    Quotient(p + q, Wrap(y));
  }

  lemma Quotient(q: int, r: nat)
    requires r < RAW_MOD
    ensures (q * RAW_MOD + r) % RAW_MOD == r
  {
  }

  /** Wrapping takes off a number of turns. */
  lemma WrapTurns(x: int) returns (turns: int)
    ensures Wrap(x) == x + turns * RAW_MOD
  {
    turns := -(x / RAW_MOD);
  }

  /** Composing two stretches of counting. */
  lemma WrapChain(end: int, later: int, mid: int, more: int, now: int, start: int)
    requires Wrap(end + later) == Wrap(mid + more) && Wrap(mid + now) == Wrap(start)
    ensures Wrap(end + now + later) == Wrap(start + more)
  {
    WrapAgain(end + later, now);
    WrapAgain(mid + more, now);
    WrapAgain(mid + now, more);
    WrapAgain(start, more);
  }

  lemma Spliced(handed: seq<Byte>, later: seq<Byte>, left: seq<Byte>, mid: seq<Byte>, start: seq<Byte>, made: seq<Byte>, more: seq<Byte>)
    requires later + left == mid + more && handed + mid == start + made
    ensures handed + later + left == start + (made + more)
  {
    assert handed + later + left == handed + (later + left);
    assert handed + (mid + more) == (handed + mid) + more;
  }
}
