/**
 * The decoder against the encoder: a burst of any bytes, sent by a clock up to half a bit a frame off and read
 * however often, is heard as those bytes in order.
 */
module DecoderRuns {
  import opened Options
  import opened Words
  import opened Uart
  import opened Decoder

  // ----- how far off a sender's clock may be -----

  function Spans(bits: nat, periodNs: nat): nat {
    bits * periodNs
  }

  /** A whole frame at the sender's bit period is, to the nearest bit of the receiver's, as many bits long. */
  predicate Tolerates(framing: Framing, periodNs: nat) {
    && framing.bitPeriodNs > 0
    && Spans(FrameBits(framing), framing.bitPeriodNs) <= Spans(FrameBits(framing), periodNs) + framing.bitPeriodNs / 2
    && Spans(FrameBits(framing), periodNs) + framing.bitPeriodNs / 2 <
         Spans(FrameBits(framing) + 1, framing.bitPeriodNs)
  }

  lemma SpansMore(m: nat, n: nat, p: nat)
    requires m <= n
    ensures Spans(m, p) <= Spans(n, p)
  {
  }

  lemma QuotientSpans(x: nat, p: nat)
    requires p > 0
    ensures x / p >= 0 && Spans(x / p, p) <= x < Spans(x / p + 1, p)
  {
    var q := x / p;
    assert x == q * p + x % p;
    assert (q + 1) * p == q * p + p;
  }

  lemma AtLeast(x: nat, m: nat, p: nat)
    requires p > 0 && Spans(m, p) <= x
    ensures x / p >= m
  {
    QuotientSpans(x, p);
    hide Spans;
    if x / p < m {
      SpansMore(x / p + 1, m, p);
    }
  }

  lemma Quotient(x: nat, m: nat, p: nat)
    requires p > 0 && Spans(m, p) <= x < Spans(m + 1, p)
    ensures x / p == m
  {
    AtLeast(x, m, p);
    QuotientSpans(x, p);
    hide Spans;
    if x / p > m {
      SpansMore(m + 1, x / p, p);
    }
  }

  /** What is within half a bit over a frame is so over any part of it. */
  lemma PartTolerated(p: nat, q: nat, frame: nat, m: nat)
    requires m <= frame
    requires Spans(frame, p) <= Spans(frame, q) + p / 2 && Spans(frame, q) + p / 2 < Spans(frame + 1, p)
    ensures Spans(m, p) <= Spans(m, q) + p / 2 && Spans(m, q) + p / 2 < Spans(m + 1, p)
  {
    var off := q - p;
    assert frame * q - frame * p == frame * off && m * q - m * p == m * off;
    assert (frame + 1) * p == frame * p + p && (m + 1) * p == m * p + p;
    if off >= 0 {
      assert 0 <= m * off <= frame * off;
    } else {
      assert frame * off <= m * off <= 0;
    }
  }

  lemma SpansTwo(m: nat, n: nat, p: nat)
    ensures Spans(m + n, p) == Spans(m, p) + Spans(n, p)
  {
  }

  /** A run within the frame is counted right. */
  lemma RunCounted(framing: Framing, q: nat, start: nat, c: nat, n: nat)
    requires Tolerates(framing, q) && c < n <= FrameBits(framing)
    ensures BitsHeld(framing, start + Spans(c, q), start + Spans(n, q)) == n - c
  {
    var p := framing.bitPeriodNs;
    hide Spans;
    SpansTwo(c, n - c, q);
    PartTolerated(p, q, FrameBits(framing), n - c);
    Quotient(Spans(n - c, q) + p / 2, n - c, p);
  }

  /** So is the run the start bit begins, counted from where that bit should end. */
  lemma FirstRunCounted(framing: Framing, q: nat, start: nat, n: nat)
    requires Tolerates(framing, q) && 0 < n <= FrameBits(framing)
    ensures BitsHeld(framing, start + framing.bitPeriodNs, start + Spans(n, q)) == n - 1
  {
    var p := framing.bitPeriodNs;
    hide Spans;
    PartTolerated(p, q, FrameBits(framing), n);
    SpansTwo(n - 1, 1, p);
    SpansTwo(n, 1, p);
    OneSpan(p);
    if Spans(n, q) >= p {
      Quotient(Spans(n, q) - p + p / 2, n - 1, p);
    } else {
      if n > 1 {
        SpansMore(2, n, p);
        SpansTwo(1, 1, p);
      }
      NoSpan(p);
      Quotient(p / 2, 0, p);
    }
  }

  lemma OneSpan(p: nat)
    ensures Spans(1, p) == p
  {
  }

  lemma NoSpan(p: nat)
    ensures Spans(0, p) == 0
  {
  }

  /** The run left open at the end is counted as at least what is missing of the frame. */
  lemma LastRunCounted(framing: Framing, q: nat, start: nat, c: nat)
    requires Tolerates(framing, q) && 0 < c < FrameBits(framing)
    ensures BitsHeld(framing, start + Spans(c, q), start + FrameNs(framing)) >= FrameBits(framing) - c
  {
    var p, f := framing.bitPeriodNs, FrameBits(framing);
    hide Spans;
    PartTolerated(p, q, f, c);
    SpansTwo(c, f - c, p);
    SpansTwo(c, 1, p);
    OneSpan(p);
    SpansMore(1, f - c, p);
    FrameSpans(framing);
    AtLeast(SatSub(start + FrameNs(framing), start + Spans(c, q)) + p / 2, f - c, p);
  }

  lemma FrameSpans(framing: Framing)
    ensures FrameNs(framing) == Spans(FrameBits(framing), framing.bitPeriodNs)
  {
  }

  /** Every edge of a frame comes before its stop bit is sampled, and the next frame's not before. */
  lemma SampledBetween(framing: Framing, q: nat, n: nat)
    requires Tolerates(framing, q) && n < FrameBits(framing)
    ensures Spans(n, q) < StopSampledNs(framing) <= Spans(FrameBits(framing), q)
    ensures Spans(n, q) < FrameNs(framing)
  {
    var p, f := framing.bitPeriodNs, FrameBits(framing);
    hide Spans;
    PartTolerated(p, q, f, n);
    SpansMore(n + 1, f, p);
    FrameSpans(framing);
  }

  // ----- a frame's bits are its byte -----

  /** The remainder is what is left of the whole spans. */
  lemma Remainder(x: nat, k: nat, m: nat, r: nat)
    requires m > 0 && x == Spans(k, m) + r && r < m
    ensures x / m == k && x % m == r
  {
    assert Spans(k + 1, m) == Spans(k, m) + m;
    Quotient(x, k, m);
    assert x == x / m * m + x % m;
  }

  lemma SpansDoubled(a: nat, m: nat)
    ensures Spans(a, 2 * m) == Spans(2 * a, m)
  {
  }

  /** Doubling the modulus adds the next bit. */
  lemma HalfMod(x: nat, m: nat)
    requires m > 0
    ensures x % (2 * m) == x % m + if x / m % 2 == 1 then m else 0
  {
    var a := x / (2 * m);
    QuotientSpans(x, 2 * m);
    SpansTwo(a, 1, 2 * m);
    OneSpan(2 * m);
    SpansDoubled(a, m);
    SpansTwo(2 * a, 1, m);
    OneSpan(m);
    hide Spans;
    var r := x - Spans(a, 2 * m);
    Remainder(x, a, 2 * m, r);
    if r < m {
      Remainder(x, 2 * a, m, r);
    } else {
      Remainder(x, 2 * a + 1, m, r - m);
    }
  }

  lemma BitAdds(x: nat, s: nat)
    requires x < 256
    ensures x % Pow2(s + 1) == x % Pow2(s) + if BitSet(x, s) then Pow2(s) else 0
  {
    HalfMod(x, Pow2(s));
  }

  /** The bits after the start bit of a frame are those its byte was sent as. */
  ghost predicate Carries(framing: Framing, byte: Byte, bits: seq<bool>) {
    |bits| == FrameBits(framing) - 1 && forall m :: 0 <= m < |bits| ==> bits[m] == (Frame(framing, byte)[m + 1] == High)
  }

  lemma CarriedBit(framing: Framing, byte: Byte, bits: seq<bool>, i: nat)
    requires Carries(framing, byte, bits) && i < |bits|
    ensures bits[i] == if i < framing.dataBits then BitSet(byte, Shift(framing, i)) else true
  {
    assert bits[i] == (Frame(framing, byte)[i + 1] == High);
  }

  lemma {:induction false} WeighedUp(framing: Framing, byte: Byte, bits: seq<bool>, n: nat)
    requires Carries(framing, byte, bits) && n <= framing.dataBits && framing.lsbFirst
    ensures Weighed(framing, bits, n) == byte % Pow2(n)
  {
    if n > 0 {
      WeighedUp(framing, byte, bits, n - 1);
      CarriedBit(framing, byte, bits, n - 1);
      BitAdds(byte, n - 1);
      hide Carries, Pow2, BitSet;
    }
  }

  lemma {:induction false} WeighedDown(framing: Framing, byte: Byte, bits: seq<bool>, n: nat)
    requires Carries(framing, byte, bits) && n <= framing.dataBits && !framing.lsbFirst
    ensures Weighed(framing, bits, n) + byte % Pow2(framing.dataBits - n) == byte % Pow2(framing.dataBits)
  {
    if n > 0 {
      WeighedDown(framing, byte, bits, n - 1);
      CarriedBit(framing, byte, bits, n - 1);
      BitAdds(byte, framing.dataBits - n);
      hide Carries, Pow2, BitSet;
    }
  }

  /** The byte as far as the frame's data bits go. */
  function Kept(framing: Framing, byte: Byte): nat {
    byte % Pow2(framing.dataBits)
  }

  lemma AssembledIs(framing: Framing, byte: Byte, bits: seq<bool>)
    requires Carries(framing, byte, bits)
    ensures Assembled(framing, bits) == Heard(Kept(framing, byte))
  {
    forall k | framing.dataBits <= k < |bits| ensures bits[k] {
      CarriedBit(framing, byte, bits, k);
    }
    if framing.lsbFirst {
      WeighedUp(framing, byte, bits, framing.dataBits);
    } else {
      WeighedDown(framing, byte, bits, framing.dataBits);
      assert Pow2(0) == 1;
    }
    hide Weighed;
  }

  /** With eight data bits it is the whole byte. */
  lemma EightKept(framing: Framing, byte: Byte)
    requires framing.dataBits >= 8
    ensures Kept(framing, byte) == byte
  {
    Pow2AtLeast(framing.dataBits);
    hide Pow2;
    NoSpan(Pow2(framing.dataBits));
    Remainder(byte, 0, Pow2(framing.dataBits), byte);
  }

  lemma {:induction false} Pow2AtLeast(n: nat)
    requires n >= 8
    ensures Pow2(n) >= 256
  {
    if n > 8 {
      Pow2AtLeast(n - 1);
    } else {
      assert Pow2(4) == 16;
      assert Pow2(8) == 16 * Pow2(4);
    }
  }

  // ----- what a frame's levels spell -----

  /** The number levels write, the first the least significant: high is one, low is nought. */
  function Spelled(levels: seq<Level>): nat {
    if |levels| == 0 then 0
    else Spelled(levels[..|levels| - 1]) + if levels[|levels| - 1] == High then Pow2(|levels| - 1) else 0
  }

  function Backwards(levels: seq<Level>): (r: seq<Level>)
    ensures |r| == |levels| && forall k :: 0 <= k < |levels| ==> r[k] == levels[|levels| - 1 - k]
  {
    seq(|levels|, k requires 0 <= k < |levels| => levels[|levels| - 1 - k])
  }

  lemma {:induction false} BitsSpell(byte: Byte, levels: seq<Level>)
    requires forall k :: 0 <= k < |levels| ==> levels[k] == if BitSet(byte, k) then High else Low
    ensures Spelled(levels) == byte % Pow2(|levels|)
  {
    if |levels| > 0 {
      var k := |levels| - 1;
      BitsSpell(byte, levels[..k]);
      BitAdds(byte, k);
      hide Pow2, BitSet;
      assert levels[k] == if BitSet(byte, k) then High else Low;
    } else {
      assert Pow2(0) == 1;
    }
  }

  /** The levels of a frame that carry the byte. */
  function DataLevels(framing: Framing, byte: Byte): (data: seq<Level>)
    ensures |data| == framing.dataBits
  {
    Frame(framing, byte)[1..1 + framing.dataBits]
  }

  lemma InBitOrder(framing: Framing, byte: Byte)
    ensures var data := DataLevels(framing, byte);
            var levels := if framing.lsbFirst then data else Backwards(data);
            forall k :: 0 <= k < |levels| ==> levels[k] == if BitSet(byte, k) then High else Low
  {
    hide BitSet;
    var data := DataLevels(framing, byte);
    assert forall k :: 0 <= k < |data| ==> data[k] == DataBit(framing, byte, k);
  }

  /** On the line a frame is a low level, then levels that spell the byte's low bits, then high ones. */
  lemma FrameSpells(framing: Framing, byte: Byte)
    ensures var (levels, data) := (Frame(framing, byte), DataLevels(framing, byte));
            && levels == [Low] + data + seq(framing.stopBits, _ => High)
            && Spelled(if framing.lsbFirst then data else Backwards(data)) == byte % Pow2(framing.dataBits)
  {
    hide Spelled, BitSet, Pow2;
    var data := DataLevels(framing, byte);
    InBitOrder(framing, byte);
    BitsSpell(byte, if framing.lsbFirst then data else Backwards(data));
  }

  /** A frame is refused exactly when it has a low stop bit, whatever its framing and its data. */
  lemma LowStopRefused(framing: Framing, bits: seq<bool>)
    ensures Assembled(framing, bits) == BadStopBit <==>
              exists k: nat :: framing.dataBits <= k < framing.dataBits + framing.stopBits && k < |bits| && !bits[k]
  {
  }

  /**
   * What is heard of a line that falls and stays down: a framing error, and nothing more before it has been up again.
   */
  lemma BreakRefused(framing: Framing, start: nat, now: nat, up: nat)
    requires framing.bitPeriodNs > 0 && framing.stopBits > 0 && now >= start + FrameNs(framing)
    ensures var down := Polled(framing, OnLevel(framing, QUIET, Low, start), now);
            && down.done == [BadStopBit] && down.frameStartNs.None? && Polled(framing, down, up) == down
            && OnLevel(framing, down, High, up) == State(High, None, [], up, [BadStopBit])
  {
    var d := OnLevel(framing, QUIET, Low, start);
    var (p, f) := (framing.bitPeriodNs, FrameBits(framing));
    FrameSpans(framing);
    SpansTwo(f - 1, 1, p);
    OneSpan(p);
    hide Spans;
    AtLeast(SatSub(start + FrameNs(framing), d.sinceNs) + p / 2, f - 1, p);
    hide FrameNs;
    var full := Absorbed(framing, d, start + FrameNs(framing));
    assert |full.bits| == f - 1 && !full.bits[framing.dataBits];
    LowStopRefused(framing, full.bits);
  }

  // ----- one frame -----

  /**
   * The decoder has heard the first `n` levels of the frame begun at `start`: all runs before the one from level
   * `c` on are bits, and that one is still running.
   */
  ghost predicate Hearing(framing: Framing, q: nat, byte: Byte, start: nat, n: nat, c: nat, d: State) {
    var levels := Frame(framing, byte);
    && c < n <= |levels| && d.frameStartNs == Some(start)
    && d.level == levels[c] && (forall m :: c <= m < n ==> levels[m] == levels[c])
    && |d.bits| == (if c == 0 then 0 else c - 1)
    && (forall m :: 0 <= m < |d.bits| ==> d.bits[m] == (levels[m + 1] == High))
    && d.sinceNs == start + if c == 0 then framing.bitPeriodNs else Spans(c, q)
  }

  /** The next level of the frame, a bit of the sender's after the last. */
  lemma EdgeHeard(framing: Framing, q: nat, byte: Byte, start: nat, n: nat, c: nat, d: State) returns (c': nat)
    requires Tolerates(framing, q) && Hearing(framing, q, byte, start, n, c, d) && n < FrameBits(framing)
    ensures Hearing(framing, q, byte, start, n + 1, c',
                    OnLevel(framing, d, Frame(framing, byte)[n], start + Spans(n, q)))
    ensures OnLevel(framing, d, Frame(framing, byte)[n], start + Spans(n, q)).done == d.done
  {
    var levels := Frame(framing, byte);
    c' := if levels[n] == levels[c] then c else n;
    SampledBetween(framing, q, n);
    if c == 0 {
      FirstRunCounted(framing, q, start, n);
    } else {
      RunCounted(framing, q, start, c, n);
    }
    hide Spans, BitsHeld, StopSampledNs, Frame, Tolerates;
  }

  /** The frame over, its tail is the level it was left at, and its byte is heard. */
  lemma FrameHeard(framing: Framing, q: nat, byte: Byte, start: nat, c: nat, d: State)
    requires Tolerates(framing, q) && framing.stopBits > 0
    requires Hearing(framing, q, byte, start, FrameBits(framing), c, d)
    ensures Closed(framing, d) ==
            State(High, None, [], start + FrameNs(framing), d.done + [Heard(Kept(framing, byte))])
  {
    var levels := Frame(framing, byte);
    assert levels[FrameBits(framing) - 1] == High && levels[0] == Low;
    LastRunCounted(framing, q, start, c);
    var full := Absorbed(framing, d, start + FrameNs(framing));
    hide Spans, BitsHeld, Frame, Tolerates, FrameNs;
    assert Carries(framing, byte, full.bits);
    AssembledIs(framing, byte, full.bits);
    hide Assembled;
  }

  // ----- a burst -----

  /** Bytes, and when each one's frame begins: no sooner than the one before it is over, by the sender's clock. */
  datatype Burst = Burst(bytes: seq<Byte>, starts: seq<nat>, periodNs: nat)

  ghost predicate Sent(framing: Framing, burst: Burst) {
    && |burst.starts| == |burst.bytes| && Tolerates(framing, burst.periodNs) && framing.stopBits > 0
    && forall k :: 0 <= k < |burst.starts| - 1 ==>
         burst.starts[k] + Spans(FrameBits(framing), burst.periodNs) <= burst.starts[k + 1]
  }

  /** `n` levels of frame `k` are on the line; what was read of the decoder so far is `out`. */
  datatype World = World(k: nat, n: nat, nowNs: nat, decoder: State, out: seq<Decoded>)

  datatype Step = Edge | Read(nowNs: nat)

  /** The line's next level: its frame, and which of the frame's. */
  function Upcoming(framing: Framing, w: World): (nat, nat) {
    if w.n < FrameBits(framing) then (w.k, w.n) else (w.k + 1, 0)
  }

  predicate MoreToSend(framing: Framing, burst: Burst, w: World) {
    Upcoming(framing, w).0 < |burst.bytes|
  }

  function EdgeNs(framing: Framing, burst: Burst, w: World): nat
    requires |burst.starts| == |burst.bytes| && MoreToSend(framing, burst, w)
  {
    var (k, n) := Upcoming(framing, w);
    burst.starts[k] + Spans(n, burst.periodNs)
  }

  /** Reads come whenever they do, in the order of time. */
  predicate Can(framing: Framing, burst: Burst, w: World, step: Step)
    requires |burst.starts| == |burst.bytes|
  {
    match step
    case Edge => MoreToSend(framing, burst, w)
    case Read(now) => w.nowNs <= now && (MoreToSend(framing, burst, w) ==> now <= EdgeNs(framing, burst, w))
  }

  function Next(framing: Framing, burst: Burst, w: World, step: Step): World
    requires |burst.starts| == |burst.bytes| && Can(framing, burst, w, step)
  {
    match step
    case Edge =>
      var (k, n) := Upcoming(framing, w);
      var at := EdgeNs(framing, burst, w);
      World(k, n + 1, at, OnLevel(framing, w.decoder, Frame(framing, burst.bytes[k])[n], at), w.out)
    case Read(now) =>
      var d := Polled(framing, w.decoder, now);
      if d.done == [] then w.(nowNs := now, decoder := d)
      else w.(nowNs := now, decoder := d.(done := d.done[1..]), out := w.out + [d.done[0]])
  }

  const QUIET := State(High, None, [], 0, [])

  ghost predicate Runs(framing: Framing, burst: Burst, worlds: seq<World>, steps: seq<Step>) {
    && |worlds| == |steps| + 1 && |burst.starts| == |burst.bytes| && worlds[0] == World(0, 0, 0, QUIET, [])
    && forall i :: 0 <= i < |steps| ==>
         Can(framing, burst, worlds[i], steps[i]) && worlds[i + 1] == Next(framing, burst, worlds[i], steps[i])
  }

  /** What the first `k` bytes are heard as. */
  function HeardAs(framing: Framing, bytes: seq<Byte>): (h: seq<Decoded>)
    ensures |h| == |bytes|
  {
    seq(|bytes|, k requires 0 <= k < |bytes| => Heard(Kept(framing, bytes[k])))
  }

  /** Between frames: everything sent so far is heard, and the line is idle. */
  ghost predicate Shut(framing: Framing, burst: Burst, w: World) {
    && w.decoder.frameStartNs.None? && w.decoder.level == High
    && (w.n == 0 || w.n == FrameBits(framing)) && (w.n == 0 ==> w.k == 0) && (w.n > 0 ==> w.k < |burst.bytes|)
    && w.out + w.decoder.done == HeardAs(framing, burst.bytes[..if w.n == 0 then 0 else w.k + 1])
  }

  /** Within a frame: every byte before it is heard. */
  ghost predicate Open(framing: Framing, burst: Burst, w: World)
    requires |burst.starts| == |burst.bytes|
  {
    && w.n > 0 && w.k < |burst.bytes|
    && w.out + w.decoder.done == HeardAs(framing, burst.bytes[..w.k])
    && exists c :: Hearing(framing, burst.periodNs, burst.bytes[w.k], burst.starts[w.k], w.n, c, w.decoder)
  }

  ghost predicate InStep(framing: Framing, burst: Burst, w: World)
    requires |burst.starts| == |burst.bytes|
  {
    Shut(framing, burst, w) || Open(framing, burst, w)
  }

  /** A start bit on an idle line opens the frame. */
  lemma StartHeard(framing: Framing, burst: Burst, w: World)
    requires Sent(framing, burst) && Shut(framing, burst, w) && MoreToSend(framing, burst, w)
    ensures Open(framing, burst, Next(framing, burst, w, Edge))
  {
    var k := Upcoming(framing, w).0;
    var t := Next(framing, burst, w, Edge);
    NoSpan(burst.periodNs);
    hide Spans, HeardAs, Tolerates;
    assert Hearing(framing, burst.periodNs, burst.bytes[k], burst.starts[k], 1, 0, t.decoder);
  }

  /** On a line just past a frame the decoder has not yet closed, the next start bit closes it first. */
  lemma NextStartHeard(framing: Framing, burst: Burst, w: World)
    requires Sent(framing, burst) && Open(framing, burst, w) && w.n == FrameBits(framing) &&
             MoreToSend(framing, burst, w)
    ensures Open(framing, burst, Next(framing, burst, w, Edge))
  {
    var q := burst.periodNs;
    var start, byte := burst.starts[w.k], burst.bytes[w.k];
    var c :| Hearing(framing, q, byte, start, w.n, c, w.decoder);
    FrameHeard(framing, q, byte, start, c, w.decoder);
    SampledBetween(framing, q, 0);
    NoSpan(q);
    var closed := w.(decoder := Closed(framing, w.decoder));
    HeardMore(framing, burst.bytes, w.k);
    assert w.decoder.level == High by {
      assert Frame(framing, byte)[w.n - 1] == High;
    }
    assert closed.out + closed.decoder.done == w.out + w.decoder.done + [Heard(Kept(framing, byte))];
    hide Spans, HeardAs, Tolerates, Hearing, Closed, Frame, StopSampledNs;
    assert Shut(framing, burst, closed);
    StartHeard(framing, burst, closed);
    assert Next(framing, burst, w, Edge) == Next(framing, burst, closed, Edge);
  }

  lemma HeardMore(framing: Framing, bytes: seq<Byte>, k: nat)
    requires k < |bytes|
    ensures HeardAs(framing, bytes[..k + 1]) == HeardAs(framing, bytes[..k]) + [Heard(Kept(framing, bytes[k]))]
  {
  }

  lemma EdgeKeeps(framing: Framing, burst: Burst, w: World)
    requires Sent(framing, burst) && InStep(framing, burst, w) && MoreToSend(framing, burst, w) &&
             w.n <= FrameBits(framing)
    ensures InStep(framing, burst, Next(framing, burst, w, Edge))
  {
    if Shut(framing, burst, w) {
      StartHeard(framing, burst, w);
    } else if w.n == FrameBits(framing) {
      NextStartHeard(framing, burst, w);
    } else {
      var q := burst.periodNs;
      var c :| Hearing(framing, q, burst.bytes[w.k], burst.starts[w.k], w.n, c, w.decoder);
      var c' := EdgeHeard(framing, q, burst.bytes[w.k], burst.starts[w.k], w.n, c, w.decoder);
      hide Spans, HeardAs, Tolerates, Hearing, OnLevel, Frame;
      assert Open(framing, burst, Next(framing, burst, w, Edge));
    }
  }

  /** Taking what is heard off the queue changes nothing of what is heard, or of the frame in progress. */
  lemma TakenKeeps(framing: Framing, burst: Burst, w: World, t: World)
    requires |burst.starts| == |burst.bytes| && t.k == w.k && t.n == w.n
    requires t.decoder == w.decoder.(done := t.decoder.done) && t.out + t.decoder.done == w.out + w.decoder.done
    ensures Shut(framing, burst, w) ==> Shut(framing, burst, t)
    ensures Open(framing, burst, w) ==> Open(framing, burst, t)
  {
    hide HeardAs, Frame, Spans;
    if Open(framing, burst, w) {
      var c :| Hearing(framing, burst.periodNs, burst.bytes[w.k], burst.starts[w.k], w.n, c, w.decoder);
      assert Hearing(framing, burst.periodNs, burst.bytes[w.k], burst.starts[w.k], w.n, c, t.decoder);
    }
  }

  /** A frame is closed by the clock only once all its edges have come. */
  lemma RipeIsWhole(framing: Framing, burst: Burst, w: World, now: nat)
    requires Sent(framing, burst) && Open(framing, burst, w) && Can(framing, burst, w, Read(now)) &&
             w.n <= FrameBits(framing)
    requires SatSub(now, burst.starts[w.k]) >= FrameNs(framing)
    ensures w.n == FrameBits(framing)
  {
    if w.n < FrameBits(framing) {
      SampledBetween(framing, burst.periodNs, w.n);
    }
  }

  lemma PolledKeeps(framing: Framing, burst: Burst, w: World, now: nat)
    requires Sent(framing, burst) && InStep(framing, burst, w) && Can(framing, burst, w, Read(now)) &&
             w.n <= FrameBits(framing)
    ensures var t := w.(decoder := Polled(framing, w.decoder, now));
            && InStep(framing, burst, t)
            && (Open(framing, burst, w) && now >= burst.starts[w.k] + FrameNs(framing) ==> Shut(framing, burst, t))
  {
    if Open(framing, burst, w) && SatSub(now, burst.starts[w.k]) >= FrameNs(framing) {
      var q := burst.periodNs;
      var start, byte := burst.starts[w.k], burst.bytes[w.k];
      RipeIsWhole(framing, burst, w, now);
      var c :| Hearing(framing, q, byte, start, w.n, c, w.decoder);
      FrameHeard(framing, q, byte, start, c, w.decoder);
      HeardMore(framing, burst.bytes, w.k);
      hide Spans, HeardAs, Tolerates, Frame, Closed, FrameNs;
      var t := w.(decoder := Closed(framing, w.decoder));
      assert t.out + t.decoder.done == w.out + w.decoder.done + [Heard(Kept(framing, byte))];
      assert Shut(framing, burst, t);
    }
  }

  /** A read closes a frame only past its last edge, and loses nothing. */
  lemma ReadKeeps(framing: Framing, burst: Burst, w: World, now: nat)
    requires Sent(framing, burst) && InStep(framing, burst, w) && Can(framing, burst, w, Read(now)) &&
             w.n <= FrameBits(framing)
    ensures InStep(framing, burst, Next(framing, burst, w, Read(now)))
    ensures Open(framing, burst, w) && now >= burst.starts[w.k] + FrameNs(framing) ==>
              Shut(framing, burst, Next(framing, burst, w, Read(now)))
  {
    hide Shut, Open, Polled;
    PolledKeeps(framing, burst, w, now);
    TakenKeeps(framing, burst, w.(decoder := Polled(framing, w.decoder, now)), Next(framing, burst, w, Read(now)));
  }

  /**
   * Whenever and however often it is read: what was read and what waits to be are the bytes sent, in order, none
   * lost, repeated or made up -- all up to the frame on the line, and that one too once it is closed.
   */
  lemma {:induction false} AlwaysInStep(framing: Framing, burst: Burst, worlds: seq<World>, steps: seq<Step>, i: nat)
    requires Runs(framing, burst, worlds, steps) && Sent(framing, burst) && i < |worlds|
    ensures InStep(framing, burst, worlds[i]) && worlds[i].n <= FrameBits(framing)
  {
    hide Shut, Open, Polled, OnLevel, Sent;
    if i == 0 {
      QuietShut(framing, burst);
    } else {
      AlwaysInStep(framing, burst, worlds, steps, i - 1);
      match steps[i - 1] {
        case Edge => EdgeKeeps(framing, burst, worlds[i - 1]);
        case Read(now) => ReadKeeps(framing, burst, worlds[i - 1], now);
      }
    }
  }

  lemma QuietShut(framing: Framing, burst: Burst)
    ensures Shut(framing, burst, World(0, 0, 0, QUIET, []))
  {
  }

  /**
   * Read once the last frame is due, the decoder has heard every byte of the burst, whole where frames carry eight
   * bits.
   */
  lemma BurstHeard(framing: Framing, burst: Burst, worlds: seq<World>, steps: seq<Step>, i: nat)
    requires Runs(framing, burst, worlds, steps) && Sent(framing, burst) && i < |steps| && |burst.bytes| > 0
    requires !MoreToSend(framing, burst, worlds[i]) && steps[i].Read?
    requires steps[i].nowNs >= burst.starts[|burst.bytes| - 1] + FrameNs(framing)
    ensures var w := worlds[i + 1]; w.out + w.decoder.done == HeardAs(framing, burst.bytes)
    ensures framing.dataBits >= 8 ==> forall k :: 0 <= k < |burst.bytes| ==>
              HeardAs(framing, burst.bytes)[k] == Heard(burst.bytes[k])
  {
    var w := worlds[i];
    AlwaysInStep(framing, burst, worlds, steps, i);
    AlwaysInStep(framing, burst, worlds, steps, i + 1);
    ReadKeeps(framing, burst, w, steps[i].nowNs);
    forall k: nat | k < |burst.bytes| && framing.dataBits >= 8 ensures Kept(framing, burst.bytes[k]) == burst.bytes[k] {
      EightKept(framing, burst.bytes[k]);
    }
    hide Hearing, Polled, OnLevel, Kept, FrameNs;
    assert w.k == |burst.bytes| - 1 && w.n == FrameBits(framing);
    assert burst.bytes[..w.k + 1] == burst.bytes;
  }
}
