/** Asynchronous framing: a byte as the levels a line carries. */
module Uart {
  import opened Words

  datatype Level = Low | High

  datatype Framing = Framing(bitPeriodNs: nat, dataBits: nat, stopBits: nat, lsbFirst: bool)

  const IDLE_LEVEL := High

  /** Bit `shift` of a byte. */
  predicate BitSet(byte: Byte, shift: nat) {
    byte / Pow2(shift) % 2 == 1
  }

  function DataBit(framing: Framing, byte: Byte, i: nat): Level
    requires i < framing.dataBits
  {
    if BitSet(byte, if framing.lsbFirst then i else framing.dataBits - 1 - i) then High else Low
  }

  /** One frame's levels: a low start bit, the data bits in wire order, high stop bits. */
  function Frame(framing: Framing, byte: Byte): (levels: seq<Level>)
    ensures |levels| == 1 + framing.dataBits + framing.stopBits && levels[0] == Low
  {
    [Low] + seq(framing.dataBits, i requires 0 <= i < framing.dataBits => DataBit(framing, byte, i)) +
    seq(framing.stopBits, _ => High)
  }

  function Frames(framing: Framing, bytes: seq<Byte>): seq<Level> {
    if |bytes| == 0 then [] else Frame(framing, bytes[0]) + Frames(framing, bytes[1..])
  }

  lemma {:induction false} FramesConcat(framing: Framing, a: seq<Byte>, b: seq<Byte>)
    ensures Frames(framing, a + b) == Frames(framing, a) + Frames(framing, b)
  {
    if |a| == 0 {
      assert a + b == b;
    } else {
      assert (a + b)[1..] == a[1..] + b;
      FramesConcat(framing, a[1..], b);
    }
  }

  /** Each level beside how long it is held: one bit period, all of them. */
  function Timed(framing: Framing, levels: seq<Level>): (edges: seq<(Level, nat)>)
    ensures |edges| == |levels|
  {
    seq(|levels|, k requires 0 <= k < |levels| => (levels[k], framing.bitPeriodNs))
  }

  function Levels(edges: seq<(Level, nat)>): (levels: seq<Level>)
    ensures |levels| == |edges|
  {
    seq(|edges|, k requires 0 <= k < |edges| => edges[k].0)
  }

  function Duration(edges: seq<(Level, nat)>): nat {
    if |edges| == 0 then 0 else edges[0].1 + Duration(edges[1..])
  }

  /** A frame lasts its own number of bit periods. */
  lemma {:induction false} FrameLasts(framing: Framing, levels: seq<Level>)
    ensures Levels(Timed(framing, levels)) == levels
    ensures Duration(Timed(framing, levels)) == |levels| * framing.bitPeriodNs
  {
    if |levels| > 0 {
      FrameLasts(framing, levels[1..]);
      assert Timed(framing, levels)[1..] == Timed(framing, levels[1..]);
      assert |levels| * framing.bitPeriodNs == |levels[1..]| * framing.bitPeriodNs + framing.bitPeriodNs;
    }
  }

  /** The encoder: start bit, data bits least or most significant first, stop bits. */
  method Encode(framing: Framing, byte: Byte) returns (edges: seq<(Level, nat)>)
    ensures edges == Timed(framing, Frame(framing, byte))
    ensures Levels(edges) == Frame(framing, byte)
    ensures Duration(edges) == (1 + framing.dataBits + framing.stopBits) * framing.bitPeriodNs
  {
    var period := framing.bitPeriodNs;
    edges := [(Low, period)];
    ghost var levels := [Low];
    for i := 0 to framing.dataBits
      invariant levels == [Low] + seq(i, j requires 0 <= j < i <= framing.dataBits => DataBit(framing, byte, j))
      invariant edges == Timed(framing, levels)
    {
      var shift := if framing.lsbFirst then i else framing.dataBits - 1 - i;
      edges := edges + [(if BitSet(byte, shift) then High else Low, period)];
      levels := levels + [DataBit(framing, byte, i)];
    }
    ghost var data := levels;
    for i := 0 to framing.stopBits
      invariant levels == data + seq(i, _ => High)
      invariant edges == Timed(framing, levels)
    {
      edges := edges + [(High, period)];
      levels := levels + [High];
    }
    FrameLasts(framing, levels);
  }
}
