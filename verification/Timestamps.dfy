/** Packet times: `calcNextTimeStamp` and the three offsets it is called with.
    Seconds are exact reals; the last step cuts the fraction to whole picoseconds. */
module Timestamps {

  /** BULKIO's split time: seconds and a fraction. */
  datatype PrecisionUTCTime = PrecisionUTCTime(twsec: real, tfsec: real) {
    function Seconds(): real { twsec + tfsec }

    /** What BULKIO promises of a time it delivers. */
    predicate Normal() { 0.0 <= tfsec < 1.0 }

    predicate WholeSeconds() { twsec == twsec.Floor as real }
  }

  /** The time a VRT packet carries: integer seconds and integer picoseconds. */
  datatype TimeStamp = TimeStamp(seconds: int, picoseconds: int)

  const PICO: real := 1000000000000.0

  function Frac(x: real): real { x - x.Floor as real }

  function Abs(x: real): real { if x < 0.0 then -x else x }

  /** The conversion of a double to an integer type drops the fraction. */
  function Trunc(x: real): int { if x < 0.0 then -((-x).Floor) else x.Floor }

  /** The offset is added to the split time; a negative fraction is the case the code does not repair. */
  function Advance(t: PrecisionUTCTime, d: real): PrecisionUTCTime {
    var v := Frac(d) + t.tfsec;
    if v >= 0.0 then PrecisionUTCTime(t.twsec + (t.tfsec + d).Floor as real, Frac(t.tfsec + d))
    else PrecisionUTCTime(t.twsec + d.Floor as real - (-v).Floor as real, 0.0)
  }

  /** The TimeStamp made of a split time. */
  function Pack(ts: PrecisionUTCTime): TimeStamp {
    TimeStamp(Trunc(ts.twsec), Trunc(ts.tfsec * PICO))
  }

  function Stamp(t: PrecisionUTCTime, xdelta: real, offset: int): TimeStamp {
    Pack(Advance(t, offset as real * xdelta))
  }

  /** The picosecond time stamp of one instant, given as a plain real number of seconds. */
  function Quantise(x: real): TimeStamp { TimeStamp(x.Floor, (Frac(x) * PICO).Floor) }

  lemma FloorShift(x: real, n: int)
    ensures (x + n as real).Floor == x.Floor + n
  {
  }

  lemma FracSum(d: real, f: real)
    ensures Frac(Frac(d) + f) == Frac(d + f)
    ensures (Frac(d) + f).Floor == (d + f).Floor - d.Floor
  {
    FloorShift(Frac(d) + f, d.Floor);
    assert Frac(d) + f + d.Floor as real == d + f;
  }

  /** calcNextTimeStamp, assignment by assignment. */
  method CalcNextTimeStamp(t: PrecisionUTCTime, xdelta: real, offset: int)
    returns (ts: PrecisionUTCTime, curr: TimeStamp)
    ensures ts == Advance(t, offset as real * xdelta)
    ensures ts.Normal()
    ensures t.Normal() ==> ts.Seconds() == t.Seconds() + offset as real * xdelta
    ensures curr == Stamp(t, xdelta, offset)
  {
    var timeToOffset := offset as real * xdelta;
    var twsec: real := timeToOffset.Floor as real;
    var tfsec := timeToOffset - twsec;

    // the push's own time comes on top
    twsec := twsec + t.twsec;
    tfsec := tfsec + t.tfsec;
    FracSum(timeToOffset, t.tfsec);

    // a fraction of a second or more carries over
    if tfsec >= 1.0 {
      var wholeSecs := tfsec.Floor as real;
      twsec := twsec + wholeSecs;
      tfsec := tfsec - wholeSecs;
    }
    // a fraction below zero borrows
    if tfsec < 0.0 {
      var wholeSecs := Abs(tfsec).Floor as real;
      var fracSecs := Abs(tfsec) - wholeSecs;
      if fracSecs > t.tfsec {
        twsec := twsec - wholeSecs;
        tfsec := tfsec - (wholeSecs + fracSecs);
      } else {
        // the sum is negative only when t.tfsec is, and then fracSecs exceeds it
        assert false;
      }
    }
    if tfsec < 0.0 {
      tfsec := 0.0;
    }
    ts := PrecisionUTCTime(twsec, tfsec);
    curr := TimeStamp(Trunc(ts.twsec), Trunc(ts.tfsec * PICO));
  }

  /** For every input, normal or not: the result is the exact instant precisely when the
      fractions do not add up to a negative number with a fraction of its own. */
  lemma AdvanceExactIff(t: PrecisionUTCTime, d: real)
    ensures Advance(t, d).Normal()
    ensures Advance(t, d).Seconds() == t.Seconds() + d <==>
            Frac(d) + t.tfsec >= 0.0 || Frac(Frac(d) + t.tfsec) == 0.0
  {
    var v := Frac(d) + t.tfsec;
    if v < 0.0 {
      if Frac(v) == 0.0 {
        FloorShift(0.0, -v.Floor);
        assert -v == 0.0 + (-v.Floor) as real;
      }
      if v == -((-v).Floor as real) {
        FloorShift(0.0, -(-v).Floor);
        assert v == 0.0 + (-(-v).Floor) as real;
      }
    }
  }

  /** Offsets compose: moving by a and then by b is moving by a + b. */
  lemma AdvanceCompose(t: PrecisionUTCTime, a: real, b: real)
    requires t.Normal()
    ensures Advance(Advance(t, a), b) == Advance(t, a + b)
  {
    var x := t.tfsec + a;
    FracSum(x, b);
    assert t.tfsec + (a + b) == x + b;
  }

  /** A normal time with whole seconds is stamped as the one instant it denotes. */
  lemma StampIsQuantise(t: PrecisionUTCTime, xdelta: real, offset: int)
    requires t.Normal() && t.WholeSeconds()
    ensures Stamp(t, xdelta, offset) == Quantise(t.Seconds() + offset as real * xdelta)
  {
    var d := offset as real * xdelta;
    var x := t.Seconds() + d;
    FloorShift(t.tfsec + d, t.twsec.Floor);
    assert t.tfsec + d + t.twsec.Floor as real == x;
    assert Advance(t, d) == PrecisionUTCTime(x.Floor as real, Frac(x));
    assert Frac(x) * PICO >= 0.0;
    FloorShift(0.0, x.Floor);
    FloorShift(0.0, -x.Floor);
    assert -(x.Floor as real) == 0.0 + (-x.Floor) as real;
    assert x.Floor as real == 0.0 + x.Floor as real;
  }

  /** Picoseconds never carry into the seconds and lose less than one picosecond. */
  lemma QuantiseLoss(x: real)
    ensures 0 <= Quantise(x).picoseconds < 1000000000000
    ensures var back := Quantise(x).seconds as real + Quantise(x).picoseconds as real / 1000000000000.0;
            0.0 <= x - back < 0.000000000001
  {
    var f := Frac(x) * PICO;
    var p := f.Floor;
    assert p as real <= f < p as real + 1.0;
    assert x - (x.Floor as real + p as real / PICO) == (f - p as real) / PICO;
  }

  const TWO32: int := 0x1_0000_0000

  /** An unsigned 32-bit value passed to an `int` parameter. */
  function NarrowToInt(u: int): int { if u >= 0x8000_0000 then u - TWO32 else u }

  /** The back-dating offset as written: the carried scalar count is unsigned, so it is
      negated modulo 2^32 before it is divided by the multiplier. */
  function BackOffset(scalars: nat, multiplier: nat): int
    requires multiplier == 1 || multiplier == 2
  {
    NarrowToInt(((TWO32 - scalars) % TWO32) / multiplier)
  }

  /** For scalar data it is minus the carried samples; for complex data it is 2^31 too large. */
  lemma BackOffsetValue(samples: nat, multiplier: nat)
    requires multiplier == 1 || multiplier == 2
    requires 0 < samples * multiplier <= 0x8000_0000
    ensures BackOffset(samples * multiplier, multiplier) ==
            (if multiplier == 2 then 0x8000_0000 else 0) - samples
    ensures BackOffset(samples * multiplier, multiplier) == -(samples as int) <==> multiplier == 1
  {
    var k := samples * multiplier;
    assert (TWO32 - k) % TWO32 == TWO32 - k;
    if multiplier == 2 {
      assert (TWO32 - 2 * samples) / 2 == 0x8000_0000 - samples;
    }
  }

  /** The time kept for the timer's context packets: the picoseconds are divided by 10e9. */
  function ContextTime(last: TimeStamp): PrecisionUTCTime {
    PrecisionUTCTime(last.seconds as real, last.picoseconds as real / 10000000000.0)
  }

  /** A timer context packet shows its data packet's instant only on a whole second;
      otherwise it is ahead of it by 99 times the fraction. */
  lemma TimerContextTime(last: TimeStamp)
    requires 0 <= last.picoseconds < 1000000000000
    ensures Advance(ContextTime(last), 0.0).Seconds() ==
            last.seconds as real + 100.0 * (last.picoseconds as real / PICO)
    ensures Advance(ContextTime(last), 0.0).Seconds() == last.seconds as real + last.picoseconds as real / PICO
            <==> last.picoseconds == 0
  {
    AdvanceExactIff(ContextTime(last), 0.0);
  }
}
