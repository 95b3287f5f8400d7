/** The write side of the deflate transfer mode: `deflate_netio_write_cb` deflates one
buffer and pushes what came out to the socket, through short and retried writes.
*/
module DeflateWrite {
  import opened RawCounter

  /** What write(2) on the socket returned; Retry stands for EINTR and EAGAIN. */
  datatype Sent = Retry | Hard | Wrote(n: nat)

  /** What deflate left behind: whether its code was Z_OK, the bytes it put out, and how
  many input bytes it did not consume. */
  datatype Deflate = Deflate(ok: bool, out: seq<Byte>, leftIn: nat)

  datatype Outcome = Done | Broken | Waiting

  /** The write loop on that many bytes, given the socket's answers: how many went out and
  how it ended. Waiting means the answers ended before the loop did. */
  function Passed(size: nat, net: seq<Sent>): (r: (nat, Outcome))
    ensures r.0 <= size
    ensures r.1.Done? <==> r.0 == size
    decreases net
  {
    if size == 0 then (0, Done)
    else if |net| == 0 then (0, Waiting)
    else
      match net[0]
      case Retry => Passed(size, net[1..])
      case Hard => (0, Broken)
      case Wrote(n) =>
        if n >= size then (size, Done)
        else
          var (rest, how) := Passed(size - n, net[1..]);
          (n + rest, how)
  }

  /** What the socket takes before its first hard error, and whether there is one. */
  function TakenUntilError(net: seq<Sent>): (nat, bool) {
    if |net| == 0 then (0, false)
    else
      match net[0]
      case Retry => TakenUntilError(net[1..])
      case Hard => (0, true)
      case Wrote(n) => (n + TakenUntilError(net[1..]).0, TakenUntilError(net[1..]).1)
  }

  /** The loop sends what the socket takes before its first hard error, up to the size, and is
  broken off exactly if that error comes before everything is out. */
  lemma {:induction false} PassedIsTaken(size: nat, net: seq<Sent>)
    ensures var (taken, error) := TakenUntilError(net);
            Passed(size, net) ==
            if taken >= size then (size, Done) else (taken, if error then Broken else Waiting)
    decreases net
  {
    var taken: nat := TakenUntilError(net).0;
    if size > 0 && |net| > 0 {
      match net[0]
      case Retry => PassedIsTaken(size, net[1..]);
      case Hard =>
      case Wrote(n) =>
        if n < size {
          PassedIsTaken(size - n, net[1..]);
        } else {
          var rest: nat := TakenUntilError(net[1..]).0;
        }
    }
  }

  /** After i answers, `offset` bytes have gone out. */
  ghost predicate Midway(size: nat, net: seq<Sent>, offset: nat, i: nat) {
    && offset <= size && i <= |net|
    && Passed(size, net) == (offset + Passed(size - offset, net[i..]).0, Passed(size - offset, net[i..]).1)
  }

  lemma {:induction false} MidwayTurn(size: nat, net: seq<Sent>, offset: nat, i: nat)
    requires offset <= size && i <= |net|
    ensures Midway(size, net, 0, 0)
    ensures Midway(size, net, offset, i) && offset < size ==>
              if i == |net| then Passed(size, net) == (offset, Waiting)
              else
                match net[i]
                case Retry => Midway(size, net, offset, i + 1)
                case Hard => Passed(size, net) == (offset, Broken)
                case Wrote(n) => if n >= size - offset then Passed(size, net) == (size, Done)
                                 else Midway(size, net, offset + n, i + 1)
  {
    assert net[0..] == net;
    if i < |net| {
      assert net[i..][1..] == net[i + 1..] && net[i..][0] == net[i];
    }
  }

  /** What the socket gets of some data: its front, in order, and all of it exactly when the
  loop ends well. */
  function Push(data: seq<Byte>, net: seq<Sent>): (r: (seq<Byte>, Outcome))
    ensures r.0 <= data
    ensures r.1.Done? <==> r.0 == data
  {
    var (n, how) := Passed(|data|, net);
    (data[..n], how)
  }

  datatype Call = Call(input: seq<Byte>, z: Deflate, net: seq<Sent>)

  /** Bytes in the output buffer not yet given up, and the raw counter. */
  datatype Out = Out(held: seq<Byte>, raw: nat)

  datatype Reply = Count(n: nat) | Failed | Waits

  function Loaded(s: Out, c: Call): seq<Byte> { s.held + c.z.out }

  /** What one call puts on the socket. */
  function Wire(s: Out, c: Call): seq<Byte> {
    if |c.input| == 0 || !c.z.ok then [] else Push(Loaded(s, c), c.net).0
  }

  /** What one call makes deflate put out. */
  function Made(c: Call): seq<Byte> { if |c.input| == 0 then [] else c.z.out }

  predicate Legal(c: Call) { c.z.leftIn <= |c.input| }

  function Step(s: Out, c: Call): (Out, Reply)
    requires Legal(c)
  {
    if |c.input| == 0 then (s, Count(0))
    else if !c.z.ok then (Out(Loaded(s, c), s.raw), Failed)
    else
      var (sent, how) := Push(Loaded(s, c), c.net);
      var taken := |c.input| - c.z.leftIn;
      match how
      case Done => (Out([], Wrap(s.raw + |sent| - taken)), Count(taken))
      case Broken => (Out(Loaded(s, c), Wrap(s.raw + |sent|)), Failed)
      case Waiting => (Out(Loaded(s, c), Wrap(s.raw + |sent|)), Waits)
  }

  // ---------------------------------------------------------------------------
  // Runs

  ghost predicate AllLegal(cs: seq<Call>) { forall i :: 0 <= i < |cs| ==> Legal(cs[i]) }

  function After(s: Out, cs: seq<Call>): Out
    requires AllLegal(cs)
    decreases cs
  {
    if |cs| == 0 then s else After(Step(s, cs[0]).0, cs[1..])
  }

  function Stream(s: Out, cs: seq<Call>): seq<Byte>
    requires AllLegal(cs)
    decreases cs
  {
    if |cs| == 0 then [] else Wire(s, cs[0]) + Stream(Step(s, cs[0]).0, cs[1..])
  }

  function Produced(cs: seq<Call>): seq<Byte> {
    if |cs| == 0 then [] else Made(cs[0]) + Produced(cs[1..])
  }

  function Returned(s: Out, cs: seq<Call>): nat
    requires AllLegal(cs)
    decreases cs
  {
    if |cs| == 0 then 0
    else
      var (t, reply) := Step(s, cs[0]);
      (if reply.Count? then reply.n else 0) + Returned(t, cs[1..])
  }

  /** Every call of the run is answered with a count. */
  ghost predicate NoneFails(s: Out, cs: seq<Call>)
    requires AllLegal(cs)
    decreases cs
  {
    |cs| == 0 || (Step(s, cs[0]).1.Count? && NoneFails(Step(s, cs[0]).0, cs[1..]))
  }

  function Offered(cs: seq<Call>): nat { if |cs| == 0 then 0 else |cs[0].input| + Offered(cs[1..]) }

  function LeftOver(cs: seq<Call>): nat { if |cs| == 0 then 0 else cs[0].z.leftIn + LeftOver(cs[1..]) }

  /** Along a run without failures the caller is told of exactly the input that deflate took. */
  lemma {:induction false} CountsSumToInput(s: Out, cs: seq<Call>)
    requires AllLegal(cs) && NoneFails(s, cs)
    ensures Returned(s, cs) == Offered(cs) - LeftOver(cs)
    decreases cs
  {
    if |cs| > 0 {
      CountsSumToInput(Step(s, cs[0]).0, cs[1..]);
    }
  }

  /** A call is answered with a count if and only if there was nothing to write, or deflate
  succeeded and the socket took all that was held and put out. It fails if and only if deflate
  did, or the socket broke before it had taken all of that. */
  lemma CountIffAllOut(s: Out, c: Call)
    requires Legal(c)
    ensures Step(s, c).1.Count? <==>
            |c.input| == 0 || (c.z.ok && TakenUntilError(c.net).0 >= |s.held| + |c.z.out|)
    ensures Step(s, c).1.Failed? <==>
            |c.input| > 0 && (!c.z.ok || (TakenUntilError(c.net).0 < |s.held| + |c.z.out| && TakenUntilError(c.net).1))
    ensures |c.input| > 0 && Step(s, c).1.Count? ==> Step(s, c).0.held == []
  {
    PassedIsTaken(|Loaded(s, c)|, c.net);
  }

  /** Bytes that went out in calls that did not end well; the buffer still holds them. */
  function SentInVain(s: Out, cs: seq<Call>): nat
    requires AllLegal(cs)
    decreases cs
  {
    if |cs| == 0 then 0
    else
      var (t, reply) := Step(s, cs[0]);
      (if reply.Count? then 0 else |Wire(s, cs[0])|) + SentInVain(t, cs[1..])
  }

  lemma StepConserves(s: Out, c: Call)
    requires Legal(c)
    ensures Step(s, c).1.Count? ==> Wire(s, c) + Step(s, c).0.held == s.held + Made(c)
    ensures !Step(s, c).1.Count? ==> Step(s, c).0.held == s.held + Made(c)
  {
  }

  lemma RawStep(s: Out, c: Call)
    requires Legal(c)
    ensures Wrap(Step(s, c).0.raw + (if Step(s, c).1.Count? then Step(s, c).1.n else 0)) == Wrap(s.raw + |Wire(s, c)|)
  {
    if |c.input| > 0 && c.z.ok {
      var sent := |Wire(s, c)|;
      var taken := |c.input| - c.z.leftIn;
      WrapAgain(s.raw + sent - taken, taken);
      WrapAgain(s.raw + sent, 0);
    }
  }

  /** The socket's bytes followed by the buffered ones are deflate's output in order, if and
  only if every call that failed did so before its first byte went out. A call that fails
  later leaves the buffer as it was, and the next call sends its front again. */
  lemma {:induction false} StreamIsFaithfulIff(s: Out, cs: seq<Call>)
    requires AllLegal(cs)
    ensures |Stream(s, cs)| + |After(s, cs).held| == |s.held| + |Produced(cs)| + SentInVain(s, cs)
    ensures Stream(s, cs) + After(s, cs).held == s.held + Produced(cs) <==> SentInVain(s, cs) == 0
    decreases cs
  {
    if |cs| > 0 {
      var c := cs[0];
      var t := Step(s, c).0;
      StepConserves(s, c);
      StreamIsFaithfulIff(t, cs[1..]);
      var rest := Stream(t, cs[1..]);
      var left := After(t, cs[1..]).held;
      if SentInVain(s, cs) == 0 {
        assert Wire(s, c) + t.held == s.held + Made(c);
        Spliced(Wire(s, c), rest, left, t.held, s.held, Made(c), Produced(cs[1..]));
      } else {
        assert |Stream(s, cs) + left| != |s.held + Produced(cs)|;
      }
    }
  }

  /** A write that breaks off after its first byte: the next call sends that byte again. */
  lemma BrokenWriteRepeats() returns (cs: seq<Call>)
    ensures AllLegal(cs) && Produced(cs) == [7, 8, 9] && Stream(Out([], 0), cs) == [7, 7, 8, 9]
  {
    var first := Call([1], Deflate(true, [7, 8], 0), [Wrote(1), Hard]);
    var second := Call([2], Deflate(true, [9], 0), [Wrote(3)]);
    cs := [first, second];
    var s := Out([], 0);
    assert first.net[1..] == [Hard];
    assert Passed(2, first.net) == (1, Broken);
    assert Wire(s, first) == [7];
    var t := Step(s, first).0;
    assert t.held == [7, 8] && Loaded(t, second) == [7, 8, 9];
    assert Wire(t, second) == [7, 8, 9];
    var u := Step(t, second).0;
    assert [first, second][1..] == [second] && [second][1..] == [];
    assert Stream(u, []) == [] && Stream(t, [second]) == [7, 8, 9];
    assert Produced([second]) == [9];
  }

  /** With the caller adding back every count it was returned, the raw counter is the number
  of bytes on the socket, on failing runs too. */
  lemma {:induction false} RawCountsSocketBytes(s: Out, cs: seq<Call>)
    requires AllLegal(cs)
    ensures Wrap(After(s, cs).raw + Returned(s, cs)) == Wrap(s.raw + |Stream(s, cs)|)
    decreases cs
  {
    if |cs| > 0 {
      var (t, reply) := Step(s, cs[0]);
      var n := if reply.Count? then reply.n else 0;
      RawStep(s, cs[0]);
      RawCountsSocketBytes(t, cs[1..]);
      WrapChain(After(t, cs[1..]).raw, Returned(t, cs[1..]), t.raw, |Stream(t, cs[1..])|, n, s.raw + |Wire(s, cs[0])|);
    }
  }

  // ---------------------------------------------------------------------------
  // The buffer

  class DeflateBuffer {
    const buffer: array<Byte>
    var filled: nat
    var raw: nat
    ghost var wire: seq<Byte>

    ghost predicate Valid()
      reads this
    {
      filled <= buffer.Length && raw < RAW_MOD
    }

    ghost function View(): Out
      requires Valid()
      reads this, buffer
    {
      Out(buffer[..filled], raw)
    }

    constructor (size: nat, raw: nat)
      requires raw < RAW_MOD
      ensures Valid() && fresh(buffer) && buffer.Length == size && View() == Out([], raw) && wire == []
    {
      buffer := new Byte[size](_ => 0);
      filled, this.raw, wire := 0, raw, [];
      new;
      assert buffer[..0] == [];
    }

    /** deflate appends to what the buffer already holds. */
    method Load(out: seq<Byte>)
      requires Valid() && filled + |out| <= buffer.Length
      modifies this`filled, buffer
      ensures Valid() && buffer[..filled] == old(buffer[..filled]) + out
    {
      forall i | 0 <= i < |out| {
        buffer[filled + i] := out[i];
      }
      filled := filled + |out|;
    }

    /** The write loop, shared by writing and by the final flush. */
    method Send(net: seq<Sent>) returns (how: Outcome)
      requires Valid()
      modifies this`raw, this`wire
      ensures how == Passed(filled, net).1 && Accounted(old(raw), old(wire), Passed(filled, net).0)
    {
      var offset: nat, datalen: nat, i: nat := 0, filled, 0;
      how := Done;
      ghost var raw0, wire0 := raw, wire;
      MidwayTurn(filled, net, 0, 0);
      while datalen > 0
        invariant offset + datalen == filled && i <= |net| && Valid() && how == Done
        invariant Accounted(raw0, wire0, offset)
        invariant Midway(filled, net, offset, i)
        decreases |net| - i
      {
        MidwayTurn(filled, net, offset, i);
        if i == |net| {
          return Waiting;
        }
        var res := net[i];
        i := i + 1;
        if res.Hard? {
          return Broken;
        }
        if res.Wrote? {
          var n := if res.n > datalen then datalen else res.n;
          Account(offset, n, raw0, wire0);
          if n == datalen {
            return Done;
          }
          offset, datalen := offset + n, datalen - n;
        }
      }
    }

    /** The first n bytes are on the socket and in the counter. */
    ghost predicate Accounted(raw0: nat, wire0: seq<Byte>, n: nat)
      reads this, buffer
    {
      Valid() && n <= filled && raw == Wrap(raw0 + n) && wire == wire0 + buffer[..filled][..n]
    }

    method Account(offset: nat, n: nat, ghost raw0: nat, ghost wire0: seq<Byte>)
      requires Accounted(raw0, wire0, offset) && offset + n <= filled
      modifies this`raw, this`wire
      ensures Accounted(raw0, wire0, offset + n)
    {
      WrapAgain(raw0 + offset, n);
      raw := Wrap(raw + n);
      wire := wire + buffer[offset..offset + n];
      assert buffer[..filled][..offset] + buffer[offset..offset + n] == buffer[..filled][..offset + n];
    }

    /** `deflate_netio_write_cb`. zlib stays within the room and the input it was given. */
    method Write(c: Call) returns (reply: Reply)
      requires Valid() && Legal(c) && filled + |c.z.out| <= buffer.Length
      modifies this, buffer
      ensures Valid() && (View(), reply) == Step(old(View()), c)
      ensures wire == old(wire) + Wire(old(View()), c)
    {
      if |c.input| == 0 {
        return Count(0);
      }
      Load(c.z.out);
      if !c.z.ok {
        return Failed;
      }
      ghost var before := raw;
      var how := Send(c.net);
      if how.Broken? {
        return Failed;
      }
      if how.Waiting? {
        return Waits;
      }
      ghost var sent := |Push(buffer[..filled], c.net).0|;
      filled := 0;
      var taken := |c.input| - c.z.leftIn;
      WrapAgain(before + sent, -taken);
      raw := Wrap(raw - taken);
      reply := Count(taken);
    }

    /** The flush of `deflate_netio_shutdown_cb`: one last deflate, pushed the same way. */
    method Shutdown(z: Deflate, net: seq<Sent>) returns (reply: Reply)
      requires Valid() && filled + |z.out| <= buffer.Length
      modifies this, buffer
      ensures Valid()
      ensures reply.Count? ==> reply.n == 0
      ensures z.ok ==> var data := old(View()).held + z.out;
                       && wire == old(wire) + Push(data, net).0
                       && raw == Wrap(old(raw) + |Push(data, net).0|)
                       && (reply.Count? <==> Push(data, net).0 == data)
      ensures !z.ok ==> wire == old(wire) && raw == old(raw) && reply.Count?
    {
      Load(z.out);
      if !z.ok {
        return Count(0);
      }
      var how := Send(net);
      reply := match how case Done => Count(0) case Broken => Failed case Waiting => Waits;
    }
  }
}
