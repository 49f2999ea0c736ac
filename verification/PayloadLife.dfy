/** The payload size over the life of a component against the buffer allocated once: for which sizes a packet
    always fits, when encapsulations, sample sizes, streams and settings change. */
module PayloadLife {
  import opened Arithmetic
  import opened PayloadSizing

  /** The arguments of one createPayload: encapsulation, scalar size, 0 for scalar and 1 for complex data. */
  datatype Call = Call(e: Encapsulation, size: int, mode: nat) {
    predicate Legal() {
      e.dataPackets && (size == 1 || size == 2 || size == 4 || size == 8) && mode <= 1
    }

    function Bytes(): int { if mode == 1 then 2 * size else size }
  }

  /** What changes the payload size after the buffer is there: createPayload, teardown, new settings. */
  datatype Act = Sized(call: Call) | Reset | Configured(requested: int)

  function Capped(requested: int): int { if requested >= 65503 then 65503 else requested }

  function After(act: Act, payload: int): int
    requires act.Sized? ==> act.call.Legal()
  {
    match act
    case Sized(call) => Clamped(call.e, call.Bytes(), payload)
    case Reset => 1428
    case Configured(requested) => Capped(requested)
  }

  /** Which acts may occur. */
  predicate Allowed(act: Act, resets: bool, configures: bool) {
    match act
    case Sized(call) => call.Legal()
    case Reset => resets
    case Configured(_) => configures
  }

  ghost predicate Legal(acts: seq<Act>, resets: bool, configures: bool) {
    forall i :: 0 <= i < |acts| ==> Allowed(acts[i], resets, configures)
  }

  ghost function Run(acts: seq<Act>, payload: int): int
    requires Legal(acts, true, true)
  {
    if acts == [] then payload else After(acts[|acts| - 1], Run(acts[..|acts| - 1], payload))
  }

  /** A packet of whole samples fits the buffer allocated for the reserved size. */
  predicate Fits(payload: int, call: Call, reserved: int)
    requires call.Legal()
  {
    TruncDiv(payload, call.Bytes()) * call.Bytes() <= reserved + 28
  }

  /** Whatever allowed acts there were since the allocation, the packets of the last createPayload fit. */
  ghost predicate AlwaysFits(reserved: int, resets: bool, configures: bool) {
    forall acts | LegalToCall(acts, resets, configures) :: FitsAfter(acts, reserved)
  }

  ghost predicate LegalToCall(acts: seq<Act>, resets: bool, configures: bool) {
    acts != [] && acts[|acts| - 1].Sized? && Legal(acts, resets, configures)
  }

  ghost predicate FitsAfter(acts: seq<Act>, reserved: int)
    requires LegalToCall(acts, true, true)
  {
    Fits(Run(acts, reserved), acts[|acts| - 1].call, reserved)
  }

  // ---- the class ----

  /** One act on the settings. */
  method Do(p: PayloadSettings, act: Act)
    requires Allowed(act, true, true)
    modifies p
    ensures p.vita49PayloadSize == After(act, old(p.vita49PayloadSize)) && p.spareCapacity == old(p.spareCapacity)
    ensures act.Sized? ==> p.samplesPerPacket == TruncDiv(p.vita49PayloadSize, act.call.Bytes())
  {
    match act
    case Sized(call) => p.CreatePayload(call.e, call.size, call.mode);
    case Reset => p.InitializeValues();
    case Configured(requested) => p.Configure(requested);
  }

  /** The settings requested before the first service call, the allocation, and any acts after it. */
  method Live(p: PayloadSettings, requested: int, acts: seq<Act>)
    requires requested >= -28 && Legal(acts, true, true)
    modifies p
    ensures p.vita49PayloadSize == Run(acts, Capped(requested)) && p.spareCapacity == Capped(requested) + 28
    ensures LegalToCall(acts, true, true) && FitsAfter(acts, Capped(requested)) ==>
              p.samplesPerPacket * acts[|acts| - 1].call.Bytes() <= p.spareCapacity
  {
    p.Configure(requested);
    p.MemoryManagement();
    assert acts[..0] == [];
    var i := 0;
    while i < |acts|
      invariant 0 <= i <= |acts| && Legal(acts[..i], true, true)
      invariant p.vita49PayloadSize == Run(acts[..i], Capped(requested)) && p.spareCapacity == Capped(requested) + 28
      invariant i > 0 && acts[i - 1].Sized? ==>
                  p.samplesPerPacket == TruncDiv(p.vita49PayloadSize, acts[i - 1].call.Bytes())
    {
      hide TruncDiv, After;
      Do(p, acts[i]);
      assert acts[..i + 1][..i] == acts[..i];
      i := i + 1;
    }
    assert acts[..i] == acts;
  }

  // ---- bounds ----

  /** After any call whole samples are at most 65520 bytes, whatever the payload was. */
  lemma LastCallBound(call: Call, payload: int)
    requires call.Legal()
    ensures TruncDiv(Clamped(call.e, call.Bytes(), payload), call.Bytes()) * call.Bytes() <= 65520
  {
    ClampLeaves(call.e, call.Bytes(), payload);
    var c := Clamped(call.e, call.Bytes(), payload);
    assert c <= 65503 + 2 * call.Bytes();
    hide Clamped;
    WholeAtMost(c, call);
  }

  lemma WholeAtMost(c: int, call: Call)
    requires call.Legal() && c <= 65503 + 2 * call.Bytes()
    ensures TruncDiv(c, call.Bytes()) * call.Bytes() <= 65520
    ensures c >= 0 ==> TruncDiv(c, call.Bytes()) * call.Bytes() <= c
  {
    if c >= 0 {
      WholeFrames(call.Bytes(), c);
      WholeIn16(c);
    } else {
      hide TruncDiv;
      MulSmall(TruncDiv(c, call.Bytes()), call.Bytes());
      NegativeWhole(c, call.Bytes());
    }
  }

  lemma NegativeWhole(c: int, f: Frame)
    requires c < 0
    ensures TruncDiv(c, f) <= 0
  {
  }

  lemma WholeIn16(c: int)
    requires 0 <= c
    ensures c <= 65535 ==> TruncDiv(c, 16) * 16 <= 65520
    ensures 65520 <= c ==> TruncDiv(c, 16) * 16 >= 65520
  {
  }

  lemma LargeFits(acts: seq<Act>, reserved: int)
    requires LegalToCall(acts, true, true) && reserved >= 65492
    ensures FitsAfter(acts, reserved)
  {
    var last := |acts| - 1;
    LastCallBound(acts[last].call, Run(acts[..last], reserved));
  }

  lemma StableCall(call: Call, payload: int)
    requires call.Legal() && payload <= 65447
    ensures Clamped(call.e, call.Bytes(), payload) == payload
  {
  }

  /** With no new settings and no size near the limit the payload is the reserved one, or 1428 after a teardown. */
  lemma {:induction false} StableRun(acts: seq<Act>, reserved: int, resets: bool)
    requires Legal(acts, resets, false) && reserved <= 65447
    ensures Run(acts, reserved) == reserved || (resets && Run(acts, reserved) == 1428)
  {
    if acts != [] {
      var last := |acts| - 1;
      assert forall i :: 0 <= i < last ==> Allowed(acts[..last][i], resets, false);
      StableRun(acts[..last], reserved, resets);
      if acts[last].Sized? { StableCall(acts[last].call, Run(acts[..last], reserved)); }
    }
  }

  lemma SmallFits(acts: seq<Act>, reserved: int, resets: bool)
    requires LegalToCall(acts, resets, false) && 0 <= reserved <= 65447 && (resets ==> reserved >= 1400)
    ensures FitsAfter(acts, reserved)
  {
    StableRun(acts, reserved, resets);
    WholeAtMost(Run(acts, reserved), acts[|acts| - 1].call);
  }

  // ---- growth ----

  /** An encapsulation with so many bytes around the payload. */
  function Around(bytes: int): (e: Encapsulation)
    requires 12 <= bytes <= 68 && bytes % 4 == 0
    ensures e.dataPackets && e.Overhead() == bytes
  {
    var udp := bytes <= 56;
    var a := bytes - (if udp then 12 else 24);
    var b := if a >= 12 then a - 12 else a;
    var c := if b >= 12 then b - 12 else b;
    var d := if c >= 8 then c - 8 else c;
    Encapsulation(udp, a >= 12, d >= 4, true, d >= 8, c >= 8, b >= 12, d >= 12)
  }

  function Doubles(bytes: int): (call: Call)
    requires 12 <= bytes <= 68 && bytes % 4 == 0
    ensures call.Legal() && call.Bytes() == 16 && call.e.Overhead() == bytes
  {
    Call(Around(bytes), 8, 1)
  }

  /** A payload up to sixteen bytes over the limit grows by a complex double. */
  lemma Grows(bytes: int, payload: int)
    requires 12 <= bytes <= 68 && bytes % 4 == 0 && 1 <= payload + bytes - MAX_PACKET <= 16
    ensures After(Sized(Doubles(bytes)), payload) == payload + 16
  {
    hide Around;
  }

  lemma RunTwo(a: Act, b: Act, payload: int)
    requires Allowed(a, true, true) && Allowed(b, true, true)
    ensures Legal([a, b], true, true) && Run([a, b], payload) == After(b, After(a, payload))
  {
    assert [a, b][..1] == [a] && [a][..0] == [];
    assert Run([a], payload) == After(a, payload) by { assert Run([], payload) == payload; }
    hide After;
  }

  /** Two and three acts, the last a call. */
  lemma FitsAfterTwo(a: Act, b: Act, reserved: int, resets: bool, configures: bool)
    requires Allowed(a, resets, configures) && Allowed(b, resets, configures) && b.Sized?
    ensures LegalToCall([a, b], resets, configures)
    ensures FitsAfter([a, b], reserved) <==> Fits(After(b, After(a, reserved)), b.call, reserved)
  {
    RunTwo(a, b, reserved);
    hide Run, After, Fits;
  }

  lemma FitsAfterThree(a: Act, b: Act, c: Act, reserved: int, resets: bool, configures: bool)
    requires Allowed(a, resets, configures) && Allowed(b, resets, configures)
    requires Allowed(c, resets, configures) && c.Sized?
    ensures LegalToCall([a, b, c], resets, configures)
    ensures FitsAfter([a, b, c], reserved) <==> Fits(After(c, After(b, After(a, reserved))), c.call, reserved)
  {
    assert [a, b, c][..2] == [a, b];
    RunTwo(a, b, reserved);
    hide After, Fits;
  }

  lemma DoublesOutgrow(payload: int, bytes: int, reserved: int)
    requires 12 <= bytes <= 68 && bytes % 4 == 0 && 0 <= reserved
    requires payload >= reserved + 44 || (payload >= 65520 && reserved < 65492)
    ensures !Fits(payload, Doubles(bytes), reserved)
  {
    hide Doubles;
    WholeFrames(16, payload);
    WholeIn16(payload);
  }

  lemma OutgrowsInTwo(reserved: int)
    requires 65488 <= reserved <= 65491
    ensures var acts := [Sized(Doubles(40)), Sized(Doubles(24))];
            LegalToCall(acts, false, false) && !FitsAfter(acts, reserved)
  {
    hide Doubles, After, Fits, FitsAfter, LegalToCall;
    Grows(40, reserved);
    Grows(24, reserved + 16);
    FitsAfterTwo(Sized(Doubles(40)), Sized(Doubles(24)), reserved, false, false);
    DoublesOutgrow(reserved + 32, 24, reserved);
  }

  lemma OutgrowsInThree(first: int, reserved: int)
    requires 44 <= first <= 68 && first % 4 == 0 && 1 <= reserved + first - MAX_PACKET <= 16
    ensures var acts := [Sized(Doubles(first)), Sized(Doubles(first - 16)), Sized(Doubles(first - 32))];
            LegalToCall(acts, false, false) && !FitsAfter(acts, reserved)
  {
    hide Doubles, After, Fits, FitsAfter, LegalToCall;
    Grows(first, reserved);
    Grows(first - 16, reserved + 16);
    Grows(first - 32, reserved + 32);
    var a, b, c := Sized(Doubles(first)), Sized(Doubles(first - 16)), Sized(Doubles(first - 32));
    FitsAfterThree(a, b, c, reserved, false, false);
    DoublesOutgrow(reserved + 48, first - 32, reserved);
  }

  /** Between 65448 and 65491: two or three calls for complex doubles, each with sixteen bytes less around the
      payload, and the packet no longer fits. */
  lemma Outgrows(reserved: int) returns (acts: seq<Act>)
    requires 65448 <= reserved <= 65491
    ensures LegalToCall(acts, false, false) && !FitsAfter(acts, reserved)
  {
    hide Doubles, FitsAfter, LegalToCall;
    if reserved >= 65488 {
      OutgrowsInTwo(reserved);
      acts := [Sized(Doubles(40)), Sized(Doubles(24))];
    } else {
      var room := 65531 - reserved;
      var first := if room > 68 then 68 else room - room % 4;
      OutgrowsInThree(first, reserved);
      acts := [Sized(Doubles(first)), Sized(Doubles(first - 16)), Sized(Doubles(first - 32))];
    }
  }

  // ---- exactly when ----

  /** One stream, the encapsulation and the sample size free to change from call to call: its packets always fit if
      and only if the size reserved is at most 65447 or at least 65492. */
  lemma StreamFitsIff(reserved: int)
    requires 0 <= reserved <= 65503
    ensures AlwaysFits(reserved, false, false) <==> reserved <= 65447 || reserved >= 65492
  {
    if reserved <= 65447 {
      forall acts | LegalToCall(acts, false, false) ensures FitsAfter(acts, reserved) {
        SmallFits(acts, reserved, false);
      }
    } else if reserved >= 65492 {
      forall acts | LegalToCall(acts, false, false) ensures FitsAfter(acts, reserved) {
        LargeFits(acts, reserved);
      }
    } else {
      var acts := Outgrows(reserved);
    }
  }

  /** Any number of streams without new settings, the payload going back to 1428 at each teardown: their packets
      always fit if and only if the size requested at first is between 1400 and 65447, or at least 65492. */
  lemma StreamsFitIff(requested: int)
    requires requested >= -28
    ensures AlwaysFits(Capped(requested), true, false) <==> 1400 <= requested <= 65447 || requested >= 65492
  {
    var reserved := Capped(requested);
    if requested < 1400 {
      SecondStreamOverruns(reserved);
    } else if requested <= 65447 {
      forall acts | LegalToCall(acts, true, false) ensures FitsAfter(acts, reserved) {
        SmallFits(acts, reserved, true);
      }
    } else if requested >= 65492 {
      forall acts | LegalToCall(acts, true, false) ensures FitsAfter(acts, reserved) {
        LargeFits(acts, reserved);
      }
    } else {
      var acts := Outgrows(reserved);
      assert LegalToCall(acts, true, false);
    }
  }

  /** With less than 1400 the second stream's packets, of 1428 bytes again, are too large. */
  lemma SecondStreamOverruns(reserved: int)
    requires reserved < 1400
    ensures var acts := [Reset, Sized(Call(Around(12), 1, 0))];
            LegalToCall(acts, true, false) && !FitsAfter(acts, reserved)
  {
    var call := Call(Around(12), 1, 0);
    FitsAfterTwo(Reset, Sized(call), reserved, true, false);
    StableCall(call, 1428);
  }

  /** With new settings in between nothing less than 65492 is enough. */
  lemma AnythingFitsIff(requested: int)
    requires requested >= -28
    ensures AlwaysFits(Capped(requested), true, true) <==> requested >= 65492
  {
    var reserved := Capped(requested);
    if requested >= 65492 {
      forall acts | LegalToCall(acts, true, true) ensures FitsAfter(acts, reserved) {
        LargeFits(acts, reserved);
      }
    } else {
      var a, b, c := Configured(65503), Sized(Doubles(28)), Sized(Doubles(12));
      FitsAfterThree(a, b, c, reserved, true, true);
      Grows(28, 65503);
      Grows(12, 65519);
      DoublesOutgrow(65535, 12, if reserved < 0 then 0 else reserved);
      assert LegalToCall([a, b, c], true, true) && !FitsAfter([a, b, c], reserved);
    }
  }
}
