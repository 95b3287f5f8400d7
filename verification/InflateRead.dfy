/** The read side of the deflate transfer mode: `deflate_netio_read_cb` hands out inflated
data from a fixed buffer and refills it from the socket only when it is empty. What zlib
and the socket do is given with each call.
*/
module InflateRead {
  import opened RawCounter

  /** What read(2) on the socket returned. */
  datatype Sock = SockError | Got(n: nat)

  /** What inflate left behind: whether its code was Z_OK or Z_STREAM_END, the bytes it put
  out, and how many input bytes it did not consume. */
  datatype Inflate = Inflate(ok: bool, out: seq<Byte>, leftIn: nat)

  datatype Call = Call(bufsz: nat, sock: Sock, z: Inflate)

  datatype In = In(pending: seq<Byte>, availIn: nat, raw: nat)

  /** A positive count with its bytes, the zero of an end of stream or an empty request, or
  an error; EAGAIN asks the caller to come back at once. */
  datatype Reply = Data(bytes: seq<Byte>) | Zero | Again | Failed

  predicate Refills(s: In, c: Call) {
    && c.bufsz > 0 && |s.pending| == 0 && c.sock.Got?
    && !(c.sock.n == 0 && s.availIn == 0)
  }

  function Step(s: In, c: Call): (In, Reply) {
    if c.bufsz == 0 then (s, Zero)
    else if |s.pending| > 0 then
      var k := if c.bufsz < |s.pending| then c.bufsz else |s.pending|;
      (In(s.pending[k..], s.availIn, Wrap(s.raw - k)), Data(s.pending[..k]))
    else if c.sock.SockError? then (s, Failed)
    else if !Refills(s, c) then (s, Zero)
    else if c.z.ok then (In(c.z.out, c.z.leftIn, Wrap(s.raw + c.sock.n)), Again)
    else (In([], c.z.leftIn, Wrap(s.raw + c.sock.n)), Failed)
  }

  // ---------------------------------------------------------------------------
  // Runs

  function After(s: In, cs: seq<Call>): In
    decreases cs
  {
    if |cs| == 0 then s else After(Step(s, cs[0]).0, cs[1..])
  }

  function Handed(s: In, c: Call): seq<Byte> {
    var reply := Step(s, c).1;
    if reply.Data? then reply.bytes else []
  }

  function Made(s: In, c: Call): seq<Byte> { if Refills(s, c) && c.z.ok then c.z.out else [] }

  function Taken(s: In, c: Call): nat { if Refills(s, c) then c.sock.n else 0 }

  /** All bytes handed to the caller. */
  function Delivered(s: In, cs: seq<Call>): seq<Byte>
    decreases cs
  {
    if |cs| == 0 then [] else Handed(s, cs[0]) + Delivered(Step(s, cs[0]).0, cs[1..])
  }

  /** All bytes inflate produced in calls it reported as good. */
  function Produced(s: In, cs: seq<Call>): seq<Byte>
    decreases cs
  {
    if |cs| == 0 then [] else Made(s, cs[0]) + Produced(Step(s, cs[0]).0, cs[1..])
  }

  /** All bytes taken off the socket and offered to inflate. */
  function Received(s: In, cs: seq<Call>): nat
    decreases cs
  {
    if |cs| == 0 then 0 else Taken(s, cs[0]) + Received(Step(s, cs[0]).0, cs[1..])
  }

  lemma StepConserves(s: In, c: Call)
    requires s.raw < RAW_MOD
    ensures Handed(s, c) + Step(s, c).0.pending == s.pending + Made(s, c)
    ensures Wrap(Step(s, c).0.raw + |Handed(s, c)|) == Wrap(s.raw + Taken(s, c))
    ensures Step(s, c).0.raw < RAW_MOD
  {
    WrapAgain(s.raw - |Handed(s, c)|, |Handed(s, c)|);
    WrapAgain(s.raw + Taken(s, c), 0);
  }

  /** Nothing is lost, repeated or reordered between inflate and the caller, whatever buffer
  sizes the caller brings. */
  lemma {:induction false} DeliveryIsFaithful(s: In, cs: seq<Call>)
    requires s.raw < RAW_MOD
    ensures Delivered(s, cs) + After(s, cs).pending == s.pending + Produced(s, cs)
    decreases cs
  {
    if |cs| > 0 {
      var t := Step(s, cs[0]).0;
      StepConserves(s, cs[0]);
      DeliveryIsFaithful(t, cs[1..]);
      Spliced(Handed(s, cs[0]), Delivered(t, cs[1..]), After(t, cs[1..]).pending, t.pending,
              s.pending, Made(s, cs[0]), Produced(t, cs[1..]));
    }
  }

  /** One call moves the counter as it should, up to a number of turns. */
  lemma StepTurns(s: In, c: Call) returns (turns: int)
    requires s.raw < RAW_MOD
    ensures Step(s, c).0.raw + |Handed(s, c)| == s.raw + Taken(s, c) + turns * RAW_MOD
    ensures Step(s, c).0.raw < RAW_MOD
  {
    var moved := s.raw + Taken(s, c) - |Handed(s, c)|;
    turns := WrapTurns(moved);
    var same := WrapTurns(s.raw);
    assert Step(s, c).0.raw == Wrap(moved) || Step(s, c).0.raw == s.raw == moved;
    if Step(s, c).0.raw != Wrap(moved) {
      turns := 0;
    }
  }

  lemma {:induction false} RawTurns(s: In, cs: seq<Call>) returns (turns: int)
    requires s.raw < RAW_MOD
    ensures After(s, cs).raw + |Delivered(s, cs)| == s.raw + Received(s, cs) + turns * RAW_MOD
    decreases cs
  {
    turns := 0;
    if |cs| > 0 {
      var first := StepTurns(s, cs[0]);
      var rest := RawTurns(Step(s, cs[0]).0, cs[1..]);
      turns := first + rest;
    }
  }

  /** The caller adds every count it is returned to the raw counter; what is then in it is
  the bytes read off the socket, even if it wrapped below zero in between. */
  lemma {:induction false} RawCountsSocketBytes(s: In, cs: seq<Call>)
    requires s.raw < RAW_MOD
    ensures Wrap(After(s, cs).raw + |Delivered(s, cs)|) == Wrap(s.raw + Received(s, cs))
  {
    var turns := RawTurns(s, cs);
    WrapShift(s.raw + Received(s, cs), turns);
  }

  /** A request for something is answered with zero, the sign for the end, if and only if the
  socket is at its end and nothing is left to inflate or to hand out. */
  lemma ZeroIffEnd(s: In, c: Call)
    requires c.bufsz > 0
    ensures Step(s, c).1.Zero? <==> |s.pending| == 0 && s.availIn == 0 && c.sock == Got(0)
  {
  }

  /** At any point of a run, then, all that inflate has put out is in the caller's hands. */
  lemma {:induction false} EndMeansAllDelivered(s: In, cs: seq<Call>, c: Call)
    requires s.raw < RAW_MOD && c.bufsz > 0 && Step(After(s, cs), c).1.Zero?
    ensures Delivered(s, cs) == s.pending + Produced(s, cs) && After(s, cs).availIn == 0
  {
    ZeroIffEnd(After(s, cs), c);
    DeliveryIsFaithful(s, cs);
    assert Delivered(s, cs) + [] == Delivered(s, cs);
  }

  /** As long as something is waiting, a request takes as much of it as it has room for,
  whatever the socket would say, and touches neither input nor inflate. */
  lemma WaitingDataGoesFirst(s: In, c: Call)
    requires c.bufsz > 0 && |s.pending| > 0
    ensures |Handed(s, c)| == (if c.bufsz < |s.pending| then c.bufsz else |s.pending|) > 0
    ensures Handed(s, c) + Step(s, c).0.pending == s.pending && Step(s, c).0.availIn == s.availIn
  {
  }

  /** What the caller is told to come back for is there when it does: the call after a refill
  hands out the front of what inflate produced. */
  lemma RefillIsHandedOut(s: In, c: Call, next: Call)
    requires Step(s, c).1.Again? && next.bufsz > 0 && |c.z.out| > 0
    ensures Handed(Step(s, c).0, next) == c.z.out[..if next.bufsz < |c.z.out| then next.bufsz else |c.z.out|]
    ensures Refills(s, c) && c.z.ok && Step(s, c).0.availIn == c.z.leftIn
  {
  }

  // ---------------------------------------------------------------------------
  // The buffer

  class InflateBuffer {
    const buffer: array<Byte>
    var pos: nat
    var len: nat
    var availIn: nat
    var raw: nat

    /** The undelivered data lies inside the buffer, and when there is none the pointer is
    back at the base. */
    ghost predicate Valid()
      reads this
    {
      pos + len <= buffer.Length && (len == 0 ==> pos == 0) && raw < RAW_MOD
    }

    ghost function View(): In
      requires Valid()
      reads this, buffer
    {
      In(buffer[pos..pos + len], availIn, raw)
    }

    /** A data stream opened for reading. */
    constructor (size: nat, raw: nat)
      requires raw < RAW_MOD
      ensures Valid() && fresh(buffer) && buffer.Length == size && View() == In([], 0, raw)
    {
      buffer := new Byte[size](_ => 0);
      pos, len, availIn, this.raw := 0, 0, 0, raw;
      new;
      assert buffer[0..0] == [];
    }

    method Drain(bufsz: nat) returns (bytes: seq<Byte>)
      requires Valid() && len > 0 && bufsz > 0
      modifies this
      ensures Valid()
      ensures forall c: Call :: c.bufsz == bufsz ==> (View(), Data(bytes)) == Step(old(View()), c)
    {
      ghost var was := View();
      if bufsz >= len {
        assert was.pending[..len] == was.pending;
        bytes := buffer[pos..pos + len];
        raw := Wrap(raw - len);
        pos, len := 0, 0;
        assert View().pending == was.pending[|was.pending|..];
      } else {
        bytes := buffer[pos..pos + bufsz];
        pos, len := pos + bufsz, len - bufsz;
        raw := Wrap(raw - bufsz);
        assert View().pending == was.pending[bufsz..] && bytes == was.pending[..bufsz];
      }
    }

    /** zlib's part of the contract is that it stays within the room and the input it was
    given. The buffer never has to grow. */
    method Read(c: Call) returns (reply: Reply, grew: bool)
      requires Valid()
      requires c.sock.Got? ==> c.z.leftIn <= availIn + c.sock.n
      requires |c.z.out| <= buffer.Length
      modifies this, buffer
      ensures Valid() && (View(), reply) == Step(old(View()), c)
      ensures !grew
    {
      grew := false;
      if c.bufsz == 0 {
        return Zero, grew;
      }
      if len > 0 {
        var bytes := Drain(c.bufsz);
        return Data(bytes), grew;
      }
      if c.sock.SockError? {
        return Failed, grew;
      }
      if c.sock.n == 0 && availIn == 0 {
        return Zero, grew;
      }
      raw := Wrap(raw + c.sock.n);
      forall i | 0 <= i < |c.z.out| {
        buffer[pos + i] := c.z.out[i];
      }
      availIn := c.z.leftIn;
      if !c.z.ok {
        return Failed, grew;
      }
      var copied := |c.z.out|;
      grew := len + copied > buffer.Length;
      len := copied;
      assert buffer[pos..pos + len] == c.z.out;
      reply := Again;
    }
  }
}
