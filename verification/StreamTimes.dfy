/** Time stamps and packet counts over whole runs. */
module StreamTimes {
  import opened Arithmetic
  import opened ByteStrings
  import opened Timestamps
  import opened Repacketiser
  import opened StreamRun

  /** Samples among bytes that are whole samples. */
  function SampleCount(bytes: nat, f: Format): nat
    requires f.Valid()
  {
    bytes / SampleBytes(f.size, f.multiplier)
  }

  /** Each push's time is the stream's start plus the samples before it, as a gapless source gives it. */
  ghost predicate Gapless(pushes: seq<Push>, f: Format, t0: real)
    requires f.Valid()
  {
    forall j :: 0 <= j < |pushes| ==>
      && pushes[j].time.Normal() && pushes[j].time.WholeSeconds()
      && pushes[j].time.Seconds() == Instant(t0, f, SampleCount(|Input(pushes[..j], f)|, f))
  }

  /** The instant n samples after the start, and its time stamp. */
  function Instant(t0: real, f: Format, n: int): real { t0 + n as real * f.xdelta }

  function SampleTime(t0: real, f: Format, n: int): TimeStamp { Quantise(Instant(t0, f, n)) }

  /** Some push ended strictly inside the k-th packet, which therefore begins with carried bytes. */
  ghost predicate Straddles(pushes: seq<Push>, f: Format, k: nat)
    requires f.Valid()
  {
    exists j :: 0 <= j <= |pushes| &&
      Times(k, f.PacketBytes()) < |Input(pushes[..j], f)| < Times(k + 1, f.PacketBytes())
  }

  /** How far the code's offset is off for a back-dated packet of complex data. */
  function Jump(f: Format): nat { if f.multiplier == 2 then 0x8000_0000 else 0 }

  lemma PacketSampleCount(k: nat, f: Format)
    requires f.Valid()
    ensures SampleCount(Times(k, f.PacketBytes()), f) == Times(k, f.samples)
    ensures Times(k, f.PacketScalars()) == Times(k, f.samples) * f.multiplier
  {
    var b := SampleBytes(f.size, f.multiplier);
    PacketSamples(f);
    TimesTimes(k, f.samples, b);
    MulMod(Times(k, f.samples), b);
    TimesTimes(k, f.samples, f.multiplier);
    assert f.PacketScalars() == f.samples * f.multiplier;
  }

  lemma SampleCountSum(a: nat, b: nat, f: Format)
    requires f.Valid() && WholeSamples(a, f) && WholeSamples(b, f)
    ensures SampleCount(a + b, f) == SampleCount(a, f) + SampleCount(b, f)
  {
    ModDifference(a, b, SampleBytes(f.size, f.multiplier));
  }

  /** The sample offset handed to calcNextTimeStamp for the i-th packet of a push. */
  function OffsetOf(carried: nat, f: Format, i: nat): int
    requires f.Valid()
  {
    if i == 0 && carried > 0 then BackOffset(carried / f.size, f.multiplier)
    else TruncDiv(Index(carried, f, i), f.multiplier)
  }

  lemma DivMul(a: int, m: int)
    requires a >= 0 && (m == 1 || m == 2)
    ensures TruncDiv(a * m, m) == a
  {
  }

  /** It is the packet's distance from the push's first sample, off by the jump when complex data is back-dated. */
  lemma OffsetValue(carried: nat, f: Format, i: nat)
    requires f.Valid() && WholeSamples(carried, f) && carried <= f.PacketBytes() && f.PacketScalars() <= 0x8000_0000
    ensures OffsetOf(carried, f, i) ==
            Times(i, f.samples) - SampleCount(carried, f) + (if i == 0 && carried > 0 then Jump(f) else 0)
  {
    var q := SampleCount(carried, f);
    WholeScalars(carried, f);
    PacketSampleCount(i, f);
    assert q * f.multiplier == carried / f.size;
    CarriedScalars(carried, f);
    if i == 0 && carried > 0 {
      BackOffsetValue(q, f.multiplier);
    } else if i > 0 {
      PacketSampleCount(1, f);
      assert Times(1, f.PacketBytes()) == f.PacketBytes() && Times(1, f.samples) == f.samples by {
        assert Times(0, f.PacketBytes()) == 0 && Times(0, f.samples) == 0;
      }
      TimesMono(1, i, f.samples);
      var a := Times(i, f.samples) - q;
      assert a * f.multiplier == Times(i, f.samples) * f.multiplier - q * f.multiplier;
      DivMul(a, f.multiplier);
    }
  }

  lemma CarriedScalars(carried: nat, f: Format)
    requires f.Valid() && WholeSamples(carried, f) && carried <= f.PacketBytes()
    ensures carried / f.size <= f.PacketScalars() && SampleCount(carried, f) <= f.samples
    ensures carried > 0 ==> SampleCount(carried, f) > 0
  {
    var b := SampleBytes(f.size, f.multiplier);
    var q := SampleCount(carried, f);
    PacketSamples(f);
    ModExact(carried, b);
    assert b * (f.samples - q) == f.samples * b - q * b;
    MulSmall(f.samples - q, b);
    WholeScalars(carried, f);
    assert q * f.multiplier <= f.samples * f.multiplier;
  }

  lemma TimeOfIsStamp(carried: nat, push: Push, f: Format, i: nat)
    requires f.Valid()
    ensures TimeOf(carried, push, f, i) == Stamp(push.time, f.xdelta, OffsetOf(carried, f, i))
  {
  }

  lemma InstantSum(t0: real, f: Format, a: int, b: int)
    ensures Instant(t0, f, a) + b as real * f.xdelta == Instant(t0, f, a + b)
  {
    var x, y := a as real, b as real;
    assert (a + b) as real == x + y;
    assert (x + y) * f.xdelta == x * f.xdelta + y * f.xdelta;
  }

  /** A stamp made from a gapless push's time. */
  lemma StampOfPush(push: Push, f: Format, t0: real, before: int, offset: int)
    requires push.time.Normal() && push.time.WholeSeconds()
    requires push.time.Seconds() == Instant(t0, f, before)
    ensures Stamp(push.time, f.xdelta, offset) == SampleTime(t0, f, before + offset)
  {
    hide Stamp, Quantise, Instant;
    StampIsQuantise(push.time, f.xdelta, offset);
    InstantSum(t0, f, before, offset);
  }

  lemma {:induction false} InputMono(pushes: seq<Push>, f: Format, j: nat)
    requires f.Valid() && j <= |pushes|
    ensures |Input(pushes[..j], f)| <= |Input(pushes, f)|
  {
    if j == |pushes| {
      assert pushes[..j] == pushes;
    } else {
      InputMono(pushes[..|pushes| - 1], f, j);
      assert pushes[..|pushes| - 1][..j] == pushes[..j];
    }
  }

  lemma {:induction false} InputWhole(pushes: seq<Push>, f: Format)
    requires f.Valid()
    ensures WholeSamples(|Input(pushes, f)|, f)
  {
    if pushes == [] {
      WholePackets(0, f);
    } else {
      InputWhole(pushes[..|pushes| - 1], f);
      WholeBytes(|pushes[|pushes| - 1].data|, f);
      WholeSum(|Input(pushes[..|pushes| - 1], f)|, |Samples(pushes[|pushes| - 1], f)|, f);
    }
  }

  /** Among the packets a push completes, only the first can straddle, and it does when bytes were carried. */
  lemma StraddleLast(pushes: seq<Push>, f: Format, K: nat, carried: nat, i: nat)
    requires f.Valid() && pushes != [] && carried < f.PacketBytes()
    requires |Input(pushes[..|pushes| - 1], f)| == Times(K, f.PacketBytes()) + carried
    requires Times(K + i + 1, f.PacketBytes()) <= |Input(pushes, f)|
    ensures Straddles(pushes, f, K + i) <==> i == 0 && carried > 0
  {
    hide Format.PacketBytes, Input;
    var last := |pushes| - 1;
    if i == 0 && carried > 0 {
      assert Straddles(pushes, f, K + i);
    }
    if Straddles(pushes, f, K + i) {
      var j :| 0 <= j <= |pushes| &&
               Times(K + i, f.PacketBytes()) < |Input(pushes[..j], f)| < Times(K + i + 1, f.PacketBytes());
      assert pushes[..|pushes|] == pushes;
      assert j <= last;
      InputMono(pushes[..last], f, j);
      assert pushes[..last][..j] == pushes[..j];
      if i > 0 { TimesMono(K + 1, K + i, f.PacketBytes()); }
    }
  }

  /** A later push does not change which earlier packets straddle. */
  lemma StraddleEarlier(pushes: seq<Push>, f: Format, k: nat)
    requires f.Valid() && pushes != []
    requires Times(k + 1, f.PacketBytes()) <= |Input(pushes[..|pushes| - 1], f)|
    ensures Straddles(pushes, f, k) <==> Straddles(pushes[..|pushes| - 1], f, k)
  {
    hide Format.PacketBytes, Input;
    var before := pushes[..|pushes| - 1];
    InputMono(pushes, f, |pushes| - 1);
    assert pushes[..|pushes|] == pushes;
    forall j | 0 <= j <= |before| ensures before[..j] == pushes[..j] {}
    if Straddles(pushes, f, k) {
      var j :| 0 <= j <= |pushes| &&
               Times(k, f.PacketBytes()) < |Input(pushes[..j], f)| < Times(k + 1, f.PacketBytes());
      assert before[..j] == pushes[..j];
    }
    if Straddles(before, f, k) {
      var j :| 0 <= j <= |before| &&
               Times(k, f.PacketBytes()) < |Input(before[..j], f)| < Times(k + 1, f.PacketBytes());
      assert before[..j] == pushes[..j];
    }
  }

  /** What the time of the k-th packet of a run is. */
  ghost function PacketTime(pushes: seq<Push>, f: Format, t0: real, k: nat): TimeStamp
    requires f.Valid()
  {
    SampleTime(t0, f, Times(k, f.samples) + (if Straddles(pushes, f, k) then Jump(f) else 0))
  }

  lemma TimeOfPacket(carried: nat, push: Push, f: Format, t0: real, before: nat, i: nat)
    requires f.Valid() && WholeSamples(carried, f) && carried <= f.PacketBytes() && f.PacketScalars() <= 0x8000_0000
    requires push.time.Normal() && push.time.WholeSeconds()
    requires push.time.Seconds() == Instant(t0, f, before + SampleCount(carried, f))
    ensures TimeOf(carried, push, f, i) ==
            SampleTime(t0, f, before + Times(i, f.samples) + (if i == 0 && carried > 0 then Jump(f) else 0))
  {
    hide Stamp, SampleTime, Instant, OffsetOf, TimeOf, WholeSamples, SampleCount;
    hide Format.PacketBytes, Format.PacketScalars;
    TimeOfIsStamp(carried, push, f, i);
    OffsetValue(carried, f, i);
    StampOfPush(push, f, t0, before + SampleCount(carried, f), OffsetOf(carried, f, i));
  }

  /** The samples before a push, by packets and carry. */
  lemma SamplesBefore(bytes: nat, K: nat, carried: nat, f: Format)
    requires f.Valid() && WholeSamples(carried, f) && bytes == Times(K, f.PacketBytes()) + carried
    ensures SampleCount(bytes, f) == Times(K, f.samples) + SampleCount(carried, f)
  {
    WholePackets(K, f);
    SampleCountSum(Times(K, f.PacketBytes()), carried, f);
    PacketSampleCount(K, f);
  }

  /** The packets one push completes, K packets into the stream. */
  lemma PushTimes(pushes: seq<Push>, f: Format, t0: real, first: nat, c: seq<Byte>, view: seq<Byte>, K: nat, n: nat,
                  i: nat)
    requires f.Valid() && f.PacketScalars() <= 0x8000_0000 && pushes != [] && Gapless(pushes, f, t0)
    requires WholeSamples(|c|, f) && |c| < f.PacketBytes()
    requires |Input(pushes[..|pushes| - 1], f)| == Times(K, f.PacketBytes()) + |c|
    requires Times(K + n, f.PacketBytes()) <= |Input(pushes, f)| && i < n
    ensures var p := Packets(view, |c|, pushes[|pushes| - 1], f, first, n)[i];
            p.time == PacketTime(pushes, f, t0, K + i) && p.count == (first + i) % 16
  {
    hide Packets, TimeOf, SampleTime, Instant, WholeSamples, Input, SampleCount, Straddles;
    hide Format.PacketBytes, Format.PacketScalars;
    var push := pushes[|pushes| - 1];
    PacketAt(view, |c|, push, f, first, n, i);
    SamplesBefore(|Input(pushes[..|pushes| - 1], f)|, K, |c|, f);
    TimeOfPacket(|c|, push, f, t0, Times(K, f.samples), i);
    TimesSum(K, i, f.samples);
    TimesMono(K + i + 1, K + n, f.PacketBytes());
    StraddleLast(pushes, f, K, |c|, i);
  }

  /** Every packet has the time and the count of its place in the stream. */
  ghost predicate Timed(packets: seq<Packet>, pushes: seq<Push>, f: Format, t0: real, first: nat)
    requires f.Valid()
  {
    forall k :: 0 <= k < |packets| ==>
      packets[k].time == PacketTime(pushes, f, t0, k) && packets[k].count == (first + k) % 16
  }

  lemma TimedExtend(before: seq<Packet>, pushes: seq<Push>, f: Format, t0: real, first: nat, c: seq<Byte>,
                    view: seq<Byte>, n: nat)
    requires f.Valid() && f.PacketScalars() <= 0x8000_0000 && pushes != [] && Gapless(pushes, f, t0)
    requires Timed(before, pushes[..|pushes| - 1], f, t0, first)
    requires WholeSamples(|c|, f) && |c| < f.PacketBytes()
    requires |Input(pushes[..|pushes| - 1], f)| == Times(|before|, f.PacketBytes()) + |c|
    requires Times(|before| + n, f.PacketBytes()) <= |Input(pushes, f)|
    ensures Timed(before + Packets(view, |c|, pushes[|pushes| - 1], f, first + |before|, n), pushes, f, t0, first)
  {
    hide PacketTime, Straddles, WholeSamples, Packets, Format.PacketBytes, Input, Gapless;
    var K := |before|;
    var all := before + Packets(view, |c|, pushes[|pushes| - 1], f, first + K, n);
    forall k | 0 <= k < |all|
      ensures all[k].time == PacketTime(pushes, f, t0, k) && all[k].count == (first + k) % 16
    {
      if k < K {
        SamePacketTime(pushes, f, t0, K, k);
      } else {
        PushTimes(pushes, f, t0, first + K, c, view, K, n, k - K);
      }
    }
  }

  /** Continuity: in a gapless run the k-th packet carries the instant of its first sample, T0 plus
      k packets of samples, and the count k mod 16; except that a packet of complex data that begins
      with carried samples is stamped 2^31 sample periods later. */
  lemma {:induction false} RunTimes(pushes: seq<Push>, beyonds: seq<seq<Byte>>, f: Format, t0: real, first: nat)
    requires Legal(pushes, f) && MemoryFor(beyonds, pushes, f)
    requires Gapless(pushes, f, t0) && f.PacketScalars() <= 0x8000_0000
    ensures Timed(RunOf(pushes, beyonds, f, first).packets, pushes, f, t0, first)
  {
    hide Timed, WholeSamples, Packets, Format.PacketBytes, Packs, Rest, Stamp, Index, Gapless, PushOutcome;
    if pushes == [] {
      EmptyTimed(pushes, f, t0, first);
    } else {
      hide RunOf, Input;
      var last := |pushes| - 1;
      var before, o, n, d := LastStep(pushes, beyonds, f, first);
      GaplessPrefix(pushes, f, t0);
      RunTimes(pushes[..last], beyonds[..last], f, t0, first);
      TimedExtend(before.packets, pushes, f, t0, first, before.carry,
                  before.carry + (pushes[last].data + beyonds[last]), n);
    }
  }

  lemma EmptyTimed(pushes: seq<Push>, f: Format, t0: real, first: nat)
    requires f.Valid()
    ensures Timed([], pushes, f, t0, first)
  {
  }

  lemma GaplessPrefix(pushes: seq<Push>, f: Format, t0: real)
    requires f.Valid() && pushes != [] && Gapless(pushes, f, t0)
    ensures Gapless(pushes[..|pushes| - 1], f, t0)
  {
    hide Input, SampleCount, Instant;
    var before := pushes[..|pushes| - 1];
    forall j | 0 <= j < |before|
      ensures before[j].time.Seconds() == Instant(t0, f, SampleCount(|Input(before[..j], f)|, f))
    {
      assert before[..j] == pushes[..j];
    }
  }

  lemma SamePacketTime(pushes: seq<Push>, f: Format, t0: real, K: nat, k: nat)
    requires f.Valid() && pushes != [] && k < K
    requires Times(K, f.PacketBytes()) <= |Input(pushes[..|pushes| - 1], f)|
    ensures PacketTime(pushes, f, t0, k) == PacketTime(pushes[..|pushes| - 1], f, t0, k)
  {
    TimesMono(k + 1, K, f.PacketBytes());
    StraddleEarlier(pushes, f, k);
  }

  lemma LastGapless(pushes: seq<Push>, f: Format, t0: real)
    requires f.Valid() && pushes != [] && Gapless(pushes, f, t0)
    ensures var push := pushes[|pushes| - 1];
            && push.time.Normal() && push.time.WholeSeconds()
            && push.time.Seconds() == Instant(t0, f, SampleCount(|Input(pushes[..|pushes| - 1], f)|, f))
  {
  }

  /** The last push meets no carried bytes or completes a packet with them. */
  predicate LastFills(pushes: seq<Push>, f: Format)
    requires f.Valid() && pushes != []
  {
    f.PacketBytesAligned();
    var carried := Rest(|Input(pushes[..|pushes| - 1], f)|, f.PacketBytes());
    carried == 0 || carried + |Samples(pushes[|pushes| - 1], f)| >= f.PacketBytes()
  }

  /** The samples the last push begins with in the spare buffer. */
  function CarriedIntoLast(pushes: seq<Push>, f: Format): nat
    requires f.Valid() && pushes != []
  {
    f.PacketBytesAligned();
    SampleCount(Rest(|Input(pushes[..|pushes| - 1], f)|, f.PacketBytes()), f)
  }

  lemma LastByCarry(pushes: seq<Push>, f: Format, carried: nat)
    requires f.Valid() && pushes != [] && f.PacketBytes() >= 1
    requires carried == Rest(|Input(pushes[..|pushes| - 1], f)|, f.PacketBytes())
    ensures LastFills(pushes, f) <==> carried == 0 || carried + |Samples(pushes[|pushes| - 1], f)| >= f.PacketBytes()
    ensures CarriedIntoLast(pushes, f) == SampleCount(carried, f)
  {
  }

  lemma FlushOffset(c: seq<Byte>, push: Push, f: Format, n: nat, d: nat)
    requires LegalPush(push, f) && WholeSamples(|c|, f) && |c| < f.PacketBytes()
    requires f.PacketScalars() <= 0x8000_0000
    requires d == |c| + |Samples(push, f)| && n == Packs(d, f.PacketBytes())
    ensures TruncDiv(Index(|c|, f, n), f.multiplier) ==
            Times(n, f.samples) - (if |c| == 0 || d >= f.PacketBytes() then SampleCount(|c|, f) else 0)
  {
    OffsetValue(|c|, f, n);
    PacksRest(d, f.PacketBytes());
    if n == 0 {
      assert Times(0, f.samples) == 0;
      assert |c| == 0 ==> SampleCount(|c|, f) == 0;
    } else {
      TimesMono(1, n, f.PacketBytes());
    }
  }

  lemma FlushStamp(c: seq<Byte>, push: Push, f: Format, t0: real, K: nat, before: nat, n: nat, d: nat)
    requires LegalPush(push, f) && WholeSamples(|c|, f) && |c| < f.PacketBytes()
    requires f.PacketScalars() <= 0x8000_0000
    requires push.time.Normal() && push.time.WholeSeconds()
    requires push.time.Seconds() == Instant(t0, f, SampleCount(before, f))
    requires before == Times(K, f.PacketBytes()) + |c|
    requires d == |c| + |Samples(push, f)| && n == Packs(d, f.PacketBytes())
    ensures Stamp(push.time, f.xdelta, TruncDiv(Index(|c|, f, n), f.multiplier)) ==
            SampleTime(t0, f, Times(K + n, f.samples) +
              (if |c| == 0 || d >= f.PacketBytes() then 0 else SampleCount(|c|, f)))
  {
    FlushOffset(c, push, f, n, d);
    hide Stamp, SampleTime, Instant, Index, WholeSamples, Packs, SampleCount, Format.PacketBytes, Format.PacketScalars;
    SamplesBefore(before, K, |c|, f);
    TimesSum(K, n, f.samples);
    StampOfPush(push, f, t0, SampleCount(before, f), TruncDiv(Index(|c|, f, n), f.multiplier));
  }

  /** The time of the short last packet: that of its first sample, or later by the samples carried into the last
      push when that push does not complete a packet with them, because only full packets are back-dated. */
  lemma FlushTime(pushes: seq<Push>, beyonds: seq<seq<Byte>>, f: Format, t0: real, first: nat)
    requires Legal(pushes, f) && MemoryFor(beyonds, pushes, f) && pushes != []
    requires Gapless(pushes, f, t0) && f.PacketScalars() <= 0x8000_0000
    ensures var r := RunOf(pushes, beyonds, f, first);
            r.flush != [] ==>
              && |r.flush| == 1
              && r.flush[0].time == SampleTime(t0, f, Times(|r.packets|, f.samples) +
                   (if LastFills(pushes, f) then 0 else CarriedIntoLast(pushes, f)))
  {
    hide RunOf, Input, WholeSamples, Packets, SampleTime, Stamp, Packs, Rest, SampleCount, Index, Instant, Gapless;
    hide Samples, LastFills, CarriedIntoLast, Format.PacketBytes, Format.PacketScalars;
    var last := |pushes| - 1;
    var before, o, n, d := LastStep(pushes, beyonds, f, first);
    LastGapless(pushes, f, t0);
    LastByCarry(pushes, f, |before.carry|);
    FlushStamp(before.carry, pushes[last], f, t0, |before.packets|, |Input(pushes[..last], f)|, n, d);
  }

  /** Sample periods are at least a picosecond, so neighbouring samples have different stamps. */
  predicate Fine(f: Format) { f.xdelta >= 1.0 / PICO }

  /** The short last packet of a gapless run has the stamp of its first sample if and only if the last push met
      no carried bytes or completed a packet with them; an empty one that ends a stream with carried bytes does
      not. */
  lemma FlushRightIff(pushes: seq<Push>, beyonds: seq<seq<Byte>>, f: Format, t0: real, first: nat)
    requires Legal(pushes, f) && MemoryFor(beyonds, pushes, f) && pushes != []
    requires Gapless(pushes, f, t0) && f.PacketScalars() <= 0x8000_0000
    requires Fine(f)
    ensures var r := RunOf(pushes, beyonds, f, first);
            r.flush != [] ==>
              (r.flush[0].time == SampleTime(t0, f, Times(|r.packets|, f.samples)) <==> LastFills(pushes, f))
  {
    hide LastFills, CarriedIntoLast, SampleTime, Fine, Times, Gapless, RunOf;
    FlushTime(pushes, beyonds, f, t0, first);
    var r := RunOf(pushes, beyonds, f, first);
    if !LastFills(pushes, f) {
      CarriedCounts(pushes, f);
      LateShows(t0, f, Times(|r.packets|, f.samples), CarriedIntoLast(pushes, f));
    }
  }

  lemma CarriedCounts(pushes: seq<Push>, f: Format)
    requires f.Valid() && pushes != [] && !LastFills(pushes, f)
    ensures CarriedIntoLast(pushes, f) >= 1
  {
    f.PacketBytesAligned();
    var bytes := |Input(pushes[..|pushes| - 1], f)|;
    InputWhole(pushes[..|pushes| - 1], f);
    WholeRemainder(bytes, f);
    PacksRest(bytes, f.PacketBytes());
    CarriedScalars(Rest(bytes, f.PacketBytes()), f);
  }

  lemma LateShows(t0: real, f: Format, n: int, k: nat)
    requires Fine(f) && k >= 1
    ensures SampleTime(t0, f, n) != SampleTime(t0, f, n + k)
  {
    InstantSum(t0, f, n, k);
    assert k as real * f.xdelta >= 1.0 / PICO by { LongerThan(k as real, f.xdelta); }
    hide Instant;
    StampsDiffer(Instant(t0, f, n), Instant(t0, f, n + k));
  }

  lemma LongerThan(k: real, x: real)
    requires k >= 1.0 && x >= 0.0
    ensures k * x >= x
  {
    assert (k - 1.0) * x >= 0.0;
  }

  /** Two instants a picosecond or more apart never get the same stamp. */
  lemma StampsDiffer(x: real, y: real)
    requires y - x >= 1.0 / PICO
    ensures Quantise(x) != Quantise(y)
  {
    hide Quantise;
    QuantiseLoss(x);
    QuantiseLoss(y);
  }

  /** 2^31 sample periods are at least a picosecond. */
  predicate Visible(f: Format) { 0x8000_0000 as real * f.xdelta >= 1.0 / PICO }

  lemma JumpShows(t0: real, f: Format, n: int)
    requires Visible(f)
    ensures SampleTime(t0, f, n) != SampleTime(t0, f, n + 0x8000_0000)
  {
    hide Instant;
    InstantSum(t0, f, n, 0x8000_0000);
    StampsDiffer(Instant(t0, f, n), Instant(t0, f, n + 0x8000_0000));
  }

  lemma TimedRightIff(packets: seq<Packet>, pushes: seq<Push>, f: Format, t0: real, first: nat)
    requires f.Valid() && Visible(f) && Timed(packets, pushes, f, t0, first)
    ensures (forall k :: 0 <= k < |packets| ==> packets[k].time == SampleTime(t0, f, Times(k, f.samples)))
            <==> f.multiplier == 1 || (forall k :: 0 <= k < |packets| ==> !Straddles(pushes, f, k))
  {
    hide Straddles, SampleTime, Instant, Times, Visible;
    forall k | 0 <= k < |packets|
      ensures packets[k].time == SampleTime(t0, f, Times(k, f.samples)) <==>
              f.multiplier == 1 || !Straddles(pushes, f, k)
    {
      JumpShows(t0, f, Times(k, f.samples));
    }
  }

  /** Every packet of a gapless run is stamped with the instant of its first sample if and only if the
      data is scalar or no packet begins with carried samples. */
  lemma TimesRightIff(pushes: seq<Push>, beyonds: seq<seq<Byte>>, f: Format, t0: real, first: nat)
    requires Legal(pushes, f) && MemoryFor(beyonds, pushes, f)
    requires Gapless(pushes, f, t0) && f.PacketScalars() <= 0x8000_0000
    requires Visible(f)
    ensures var packets := RunOf(pushes, beyonds, f, first).packets;
            (forall k :: 0 <= k < |packets| ==> packets[k].time == SampleTime(t0, f, Times(k, f.samples)))
            <==> f.multiplier == 1 || (forall k :: 0 <= k < |packets| ==> !Straddles(pushes, f, k))
  {
    RunTimes(pushes, beyonds, f, t0, first);
    TimedRightIff(RunOf(pushes, beyonds, f, first).packets, pushes, f, t0, first);
  }
}
