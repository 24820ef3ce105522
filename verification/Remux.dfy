/**
 The packet loop of the file remuxer: every packet's times are rescaled from the input
 stream's time base to the output stream's, and the packet is written; the first write
 that fails ends the loop.
 */
module Remux {
  import opened Rounding

  const INT64_MAX: int := 0x7FFF_FFFF_FFFF_FFFF
  const INT64_MIN: int := -0x8000_0000_0000_0000

  datatype Packet = Packet(stream: nat, pts: int, dts: int, duration: int, pos: int, payload: seq<int>)

  /** The two time bases of one stream of the file. */
  datatype Stream = Stream(input: TimeBase, output: TimeBase) {
    predicate Valid() {
      input.Valid() && output.Valid()
    }
  }

  const SAME_BASES: Stream := Stream(TimeBase(1, 1), TimeBase(1, 1))

  type ValidStream = s: Stream | s.Valid() witness SAME_BASES

  /** The rescaled number of ticks. */
  function Ticks(t: int, s: ValidStream): int {
    FactorPositive(s.input, s.output);
    Rescale(t, Scale(s.input, s.output), Unit(s.input, s.output))
  }

  /** The rescaled number of ticks is the integer nearest to the exact time in output ticks. */
  lemma TicksAreNearest(t: int, s: ValidStream)
    ensures s.input.den * s.output.num > 0
    ensures IsNearest(t * s.input.num * s.output.den, s.input.den * s.output.num, Ticks(t, s))
  {
    FactorPositive(s.input, s.output);
    RoundedDivIsNearest(t * Scale(s.input, s.output), Unit(s.input, s.output));
    ProductOfThree(t, s.input.num, s.output.den);
  }

  lemma ProductOfThree(a: int, b: int, c: int)
    ensures a * b * c == a * (b * c)
  {
  }

  /** A time stamp that means a time: unknown and unbounded stamps are passed through. */
  predicate Known(t: int) {
    t != INT64_MIN && t != INT64_MAX
  }

  /** `av_rescale_q_rnd` with `AV_ROUND_NEAR_INF | AV_ROUND_PASS_MINMAX`. */
  function Stamp(t: int, s: ValidStream): int {
    if Known(t) then Ticks(t, s) else t
  }

  function Rewritten(p: Packet, s: ValidStream): Packet {
    p.(pts := Stamp(p.pts, s), dts := Stamp(p.dts, s), duration := Ticks(p.duration, s), pos := -1)
  }

  /** Every packet belongs to one of the streams. */
  predicate Belong(packets: seq<Packet>, streams: seq<ValidStream>) {
    forall i | 0 <= i < |packets| :: packets[i].stream < |streams|
  }

  /** The packets as the remuxer writes them when every write succeeds. */
  function RewriteAll(packets: seq<Packet>, streams: seq<ValidStream>): (r: seq<Packet>)
    requires Belong(packets, streams)
    ensures |r| == |packets|
    ensures forall i | 0 <= i < |r| :: r[i] == Rewritten(packets[i], streams[packets[i].stream])
  {
    if packets == [] then []
    else
      var n := |packets| - 1;
      RewriteAll(packets[..n], streams) + [Rewritten(packets[n], streams[packets[n].stream])]
  }

  /** `r` is the time `t` in output ticks, to the nearest one. */
  predicate SameTime(t: int, r: int, s: ValidStream) {
    IsNearest(t * s.input.num * s.output.den, s.input.den * s.output.num, r)
  }

  /** The time stamp as it comes out: unknown and unbounded ones unchanged, every other the same time. */
  predicate SameStamp(t: int, r: int, s: ValidStream) {
    if t == -0x8000_0000_0000_0000 || t == 0x7FFF_FFFF_FFFF_FFFF then r == t else SameTime(t, r, s)
  }

  /** What each field of a packet becomes. */
  lemma RewriteFields(packets: seq<Packet>, streams: seq<ValidStream>, i: nat)
    requires Belong(packets, streams) && i < |packets|
    ensures var p, r, s := packets[i], RewriteAll(packets, streams)[i], streams[packets[i].stream];
            && r.stream == p.stream && r.payload == p.payload && r.pos == -1
            && SameStamp(p.pts, r.pts, s) && SameStamp(p.dts, r.dts, s) && SameTime(p.duration, r.duration, s)
  {
    var p := packets[i];
    var s := streams[p.stream];
    TicksAreNearest(p.pts, s);
    TicksAreNearest(p.dts, s);
    TicksAreNearest(p.duration, s);
  }

  /** The loop; write number `failing`, if it is reached, fails. */
  method RemuxPackets(packets: seq<Packet>, streams: seq<ValidStream>, failing: nat) returns (written: seq<Packet>)
    requires Belong(packets, streams)
    ensures var n := if failing < |packets| then failing else |packets|;
            written == RewriteAll(packets[..n], streams)
  {
    written := [];
    var i := 0;
    while i < |packets|
      invariant 0 <= i <= |packets| && i <= failing
      invariant written == RewriteAll(packets[..i], streams)
    {
      var packet := packets[i];
      var stream := streams[packet.stream];
      packet := packet.(pts := Stamp(packet.pts, stream));
      packet := packet.(dts := Stamp(packet.dts, stream));
      packet := packet.(duration := Ticks(packet.duration, stream));
      packet := packet.(pos := -1);
      if i == failing {
        break;
      }
      assert packets[..i + 1][..i] == packets[..i];
      written := written + [packet];
      i := i + 1;
    }
    assert packets[..|packets|] == packets;
  }

  predicate Stamped(p: Packet) {
    Known(p.pts) && Known(p.dts)
  }

  /** Presentation is not before decoding. */
  predicate Presentable(p: Packet) {
    p.dts <= p.pts
  }

  /** An output tick is no longer than an input tick. */
  predicate AsFine(s: ValidStream) {
    s.input.num * s.output.den >= s.input.den * s.output.num
  }

  lemma TicksMonotone(t: int, u: int, s: ValidStream)
    requires t <= u
    ensures Ticks(t, s) <= Ticks(u, s)
    ensures t < u && AsFine(s) ==> Ticks(t, s) < Ticks(u, s)
  {
    FactorPositive(s.input, s.output);
    RescaleMonotone(t, u, Scale(s.input, s.output), Unit(s.input, s.output));
  }

  /** A packet presented no earlier than it is decoded stays so. */
  lemma KeepsPresentable(packets: seq<Packet>, streams: seq<ValidStream>, i: nat)
    requires Belong(packets, streams) && i < |packets|
    requires Stamped(packets[i]) && Presentable(packets[i])
    ensures Presentable(RewriteAll(packets, streams)[i])
  {
    var p := packets[i];
    TicksMonotone(p.dts, p.pts, streams[p.stream]);
  }

  /** Two packets of one stream keep the order of their decoding times. */
  lemma KeepsDecodingOrder(packets: seq<Packet>, streams: seq<ValidStream>, i: nat, j: nat)
    requires Belong(packets, streams) && i < j < |packets|
    requires packets[i].stream == packets[j].stream
    requires Known(packets[i].dts) && Known(packets[j].dts) && packets[i].dts <= packets[j].dts
    ensures var r, s := RewriteAll(packets, streams), streams[packets[i].stream];
            && r[i].stream == r[j].stream
            && r[i].dts <= r[j].dts
            && (packets[i].dts < packets[j].dts && AsFine(s) ==> r[i].dts < r[j].dts)
  {
    TicksMonotone(packets[i].dts, packets[j].dts, streams[packets[i].stream]);
  }

  /**
   A stream's strictly increasing decoding times stay strictly increasing, whatever they
   are, exactly when its output time base is at least as fine as its input time base.
   */
  lemma StrictOrderIffFiner(s: ValidStream)
    ensures (forall t, u | t < u :: Ticks(t, s) < Ticks(u, s)) <==>
            s.input.num * s.output.den >= s.input.den * s.output.num
  {
    FactorPositive(s.input, s.output);
    var n, m := Scale(s.input, s.output), Unit(s.input, s.output);
    StrictIffFiner(n, m);
    assert forall t :: Ticks(t, s) == Rescale(t, n, m);
  }

  // ---------------------------------------------------------------------------
  // Single packets
  // ---------------------------------------------------------------------------

  /** `AV_NOPTS_VALUE`. */
  const NOPTS: int := INT64_MIN

  function RescaledTime(t: int, s: ValidStream): int {
    if t == NOPTS then t else Ticks(t, s)
  }

  /** `av_packet_rescale_ts`: unknown times, and durations that are not positive, stay as they are. */
  function RescaledTimes(p: Packet, s: ValidStream): Packet {
    p.(pts := RescaledTime(p.pts, s), dts := RescaledTime(p.dts, s),
       duration := if p.duration > 0 then Ticks(p.duration, s) else p.duration)
  }

  /** The time stamp as it comes out: an unknown one unchanged, every other the same time. */
  predicate SameOrUnknown(t: int, r: int, s: ValidStream) {
    if t == -0x8000_0000_0000_0000 then r == t else SameTime(t, r, s)
  }

  /** What each field of a packet becomes. */
  lemma RescaledFields(p: Packet, s: ValidStream)
    ensures var r := RescaledTimes(p, s);
            && r.stream == p.stream && r.payload == p.payload && r.pos == p.pos
            && SameOrUnknown(p.pts, r.pts, s) && SameOrUnknown(p.dts, r.dts, s)
            && (if p.duration > 0 then SameTime(p.duration, r.duration, s) else r.duration == p.duration)
  {
    TicksAreNearest(p.pts, s);
    TicksAreNearest(p.dts, s);
    TicksAreNearest(p.duration, s);
  }

  /** All decoding times are known and do not fall. */
  ghost predicate Rising(ps: seq<Packet>) {
    && (forall i | 0 <= i < |ps| :: ps[i].dts != NOPTS)
    && (forall i, j | 0 <= i < j < |ps| :: ps[i].dts <= ps[j].dts)
  }

  /** A count of input ticks is a count of output ticks, too, after one tick was rescaled, and then all. */
  function TwiceRescaled(count: nat, s: ValidStream): int {
    Ticks(count * Ticks(1, s), s)
  }

  /** Both roundings written out: `tick` is one input tick in output ticks, and the time that of `count` such ticks. */
  lemma TwiceRescaledIs(count: nat, s: ValidStream) returns (tick: int)
    ensures SameTime(1, tick, s) && SameTime(count * tick, TwiceRescaled(count, s), s)
    ensures tick == Ticks(1, s) >= 0
  {
    tick := Ticks(1, s);
    TicksAreNearest(1, s);
    TicksAreNearest(count * tick, s);
    TicksOfNone(s);
    TicksMonotone(0, 1, s);
  }

  lemma TicksOfNone(s: ValidStream)
    ensures Ticks(0, s) == 0 && Ticks(Unit(s.input, s.output), s) == Scale(s.input, s.output) > 0
    ensures Unit(s.input, s.output) > 0
  {
    FactorPositive(s.input, s.output);
    RescaleWhole(Scale(s.input, s.output), Unit(s.input, s.output));
  }

  lemma TicksTwice(s: ValidStream)
    requires Ticks(1, s) >= 2
    ensures Ticks(Ticks(1, s), s) > Ticks(1, s)
  {
    FactorPositive(s.input, s.output);
    RescaledTwice(Scale(s.input, s.output), Unit(s.input, s.output), Ticks(1, s));
  }

  /** Rescaling twice is rescaling once, for all counts, exactly when one tick becomes one tick. */
  lemma TwiceIsOnceIff(s: ValidStream)
    ensures (forall count: nat :: TwiceRescaled(count, s) == Ticks(count, s)) <==> Ticks(1, s) == 1
  {
    TicksOfNone(s);
    TicksMonotone(0, 1, s);
    if Ticks(1, s) == 0 {
      var count: nat := Unit(s.input, s.output);
      assert count * Ticks(1, s) == 0;
      assert TwiceRescaled(count, s) != Ticks(count, s);
    } else if Ticks(1, s) >= 2 {
      TicksTwice(s);
      assert 1 * Ticks(1, s) == Ticks(1, s);
      assert TwiceRescaled(1, s) != Ticks(1, s);
    } else {
      forall count: nat ensures TwiceRescaled(count, s) == Ticks(count, s) {
        assert count * 1 == count;
      }
    }
  }

  /** Either way the times do not fall as the counts rise. */
  lemma TwiceRescaledMonotone(a: nat, b: nat, s: ValidStream)
    requires a <= b
    ensures 0 <= TwiceRescaled(a, s) <= TwiceRescaled(b, s)
  {
    TicksOfNone(s);
    TicksMonotone(0, 1, s);
    if Ticks(1, s) == 0 {
      assert a * Ticks(1, s) == 0 == b * Ticks(1, s);
    } else {
      ProductsSpread(a, b, Ticks(1, s));
      ProductsSpread(0, a, Ticks(1, s));
    }
    TicksMonotone(0, a * Ticks(1, s), s);
    TicksMonotone(a * Ticks(1, s), b * Ticks(1, s), s);
  }
}
