/** When the copies into the spare buffer stay inside it: for one push, and for all pushes after one. */
module SpareBuffer {
  import opened Arithmetic
  import opened ByteStrings
  import opened Repacketiser
  import opened StreamRun
  import opened ModeSwitch

  /** What a loop leaves that goes on only while two packets are there. */
  lemma DoubleTest(d: nat, P: nat)
    requires P >= 1
    ensures d - Times(Turns(d, 2 * P, P), P) == if d < P then d else P + d % P
    ensures Turns(d, 2 * P, P) == 0 <==> d < 2 * P
  {
    var n := Turns(d, 2 * P, P);
    TurnsBounds(d, 2 * P, P);
    TimesIsProduct(n, P);
    if d >= P {
      var left := d - n * P;
      assert P <= left < 2 * P;
      assert P * (n + 1) == n * P + P;
      ModUnique(d, P, n + 1, left - P);
    }
  }

  /** Given room for one packet, both copies of a push stay inside the spare buffer if and only if no more than a
      packet is carried into a packet, and the push is empty, or does not go from complex to scalar, or does not
      reach a packet, or what is saved, a packet and the remainder, still fits. */
  lemma CopiesFitIff(carried: nat, bytes: nat, m0: nat, f: Format, capacity: nat)
    requires f.Valid() && (m0 == 1 || m0 == 2) && f.PacketBytes() <= capacity
    ensures f.PacketBytes() >= 1
    ensures var P, accepted := f.PacketBytes(), Accepted(carried, bytes, m0, f);
            CopiesFit(carried, bytes, m0, f, capacity) <==>
            && (carried <= P || accepted < TestBytes(f, m0))
            && (bytes == 0 || m0 <= f.multiplier || accepted < P || P + accepted % P <= capacity)
  {
    OtherTest(f);
    var P, accepted := f.PacketBytes(), Accepted(carried, bytes, m0, f);
    hide Format.PacketBytes, TestBytes, Accepted;
    TurnsBounds(accepted, TestBytes(f, m0), P);
    if m0 > f.multiplier { DoubleTest(accepted, P); }
  }

  /** An input whose saved remainder does not fit: 2000 octets of a scalar stream that follows a complex one, with
      the payload of 1428 bytes the component starts with. No packet is cut and all 2000 bytes are saved. */
  lemma CopiesCanOverrun(xdelta: real)
    ensures var f := Format(1, 1, 1428, xdelta);
            && f.PacketBytes() == 1428 && Left(0, 2000, 2, f) == 2000
            && !CopiesFit(0, 2000, 2, f, 1428 + 28)
  {
    SavedWhole(2000, xdelta);
  }

  lemma SavedWhole(bytes: nat, xdelta: real)
    requires bytes < 2856 && bytes % 2 == 0
    ensures var f := Format(1, 1, 1428, xdelta);
            f.PacketBytes() == 1428 && Left(0, bytes, 2, f) == bytes && Completed(0, bytes, 2, f) == 0
  {
    var f := Format(1, 1, 1428, xdelta);
    assert f.PacketBytes() == 1428 && TestBytes(f, 2) == 2856;
    assert Accepted(0, bytes, 2, f) == bytes;
    assert Times(0, 1428) == 0;
  }

  /** An input that fits and leaves more than a packet, so that the next push does not: of 1430 octets all are saved,
      and whatever follows, the length of the copy that should complete them to 1428 wraps around. */
  lemma SavedCanExceedPacket(xdelta: real, bytes: nat)
    ensures var f := Format(1, 1, 1428, xdelta);
            && CopiesFit(0, 1430, 2, f, 1428 + 28) && CarriedLength(0, 1430, 2, f) == 1430
            && !CopiesFit(1430, bytes, 1, f, 1428 + 28)
  {
    SavedWhole(1430, xdelta);
    var f := Format(1, 1, 1428, xdelta);
    CarriedCompletes(1430, bytes, f);
  }

  /** A push after a harmless mode change stays inside if and only if no more than a packet was carried. */
  lemma HarmlessFitsIff(carried: nat, bytes: nat, eos: bool, f: Format, capacity: nat)
    requires f.Valid() && f.PacketBytes() <= capacity && Harmless(carried, bytes, eos, f)
    requires carried % f.size == 0 && bytes % f.size == 0
    ensures CopiesFit(carried, bytes, OtherMultiplier(f), f, capacity) <==> carried <= f.PacketBytes()
  {
    CopiesFitIff(carried, bytes, OtherMultiplier(f), f, capacity);
    OtherTest(f);
    AcceptedBy(carried, bytes, f);
  }

  // ---- all pushes after one ----

  /** How many bytes a push leaves in the spare buffer. */
  function CarriedLength(carried: nat, bytes: nat, m0: nat, f: Format): nat
    requires f.Valid()
  {
    if Left(carried, bytes, m0, f) > 0 && bytes > 0 then Left(carried, bytes, m0, f)
    else if Completed(carried, bytes, m0, f) > 0 then 0
    else carried
  }

  lemma OutcomeCarries(c: seq<Byte>, push: Push, beyond: seq<Byte>, m0: nat, f: Format, first: nat)
    requires Defined(|c|, push, beyond, m0, f)
    ensures |PushOutcome(c, push, beyond, m0, f, first).carry| == CarriedLength(|c|, |push.data|, m0, f)
  {
    hide PushOutcome, Packets, Flush, CarryOver, Completed, Left, Defined;
    var mem := push.data + beyond;
    var n, left := OutcomeParts(c, push, mem, beyond, m0, f, first);
    CarryIs(c, mem, |push.data|, f, n, left);
  }

  /** Pushes of these lengths, one after another in an unchanged format: every copy of each stays inside. */
  predicate LaterFit(carried: nat, lengths: seq<nat>, f: Format, capacity: nat)
    requires f.Valid()
    decreases |lengths|
  {
    lengths == [] ||
    (CopiesFit(carried, lengths[0], f.multiplier, f, capacity) &&
     LaterFit(CarriedLength(carried, lengths[0], f.multiplier, f), lengths[1..], f, capacity))
  }

  /** A packet or more of carried bytes completes a packet, whatever comes. */
  lemma CarriedCompletes(carried: nat, bytes: nat, f: Format)
    requires f.Valid() && carried >= f.PacketBytes()
    ensures Completed(carried, bytes, f.multiplier, f) > 0
  {
    OtherTest(f);
    WholePackets(1, f);
    assert Times(1, f.PacketBytes()) == f.PacketBytes() by { assert Times(0, f.PacketBytes()) == 0; }
    WholeBytes(carried, f);
    WholeBytes(bytes, f);
    WholeSum(f.PacketBytes(), Whole(carried, f.size, f.multiplier), f);
    if Whole(carried, f.size, f.multiplier) < f.PacketBytes() {
      OneSample(f.PacketBytes() - Whole(carried, f.size, f.multiplier), f);
    }
  }

  /** One push in an unchanged format leaves less than a packet, if it had no more than one to begin with. */
  lemma LeavesLess(carried: nat, bytes: nat, f: Format, capacity: nat)
    requires f.Valid() && f.PacketBytes() <= capacity
    ensures CopiesFit(carried, bytes, f.multiplier, f, capacity) <==> carried <= f.PacketBytes()
    ensures carried <= f.PacketBytes() ==> CarriedLength(carried, bytes, f.multiplier, f) < f.PacketBytes()
  {
    OtherTest(f);
    CopiesFitIff(carried, bytes, f.multiplier, f, capacity);
    if carried >= f.PacketBytes() { CarriedCompletes(carried, bytes, f); }
    TurnsBounds(Accepted(carried, bytes, f.multiplier, f), f.PacketBytes(), f.PacketBytes());
  }

  /** In an unchanged format every copy of every later push stays inside if and only if no more than a packet is
      carried into the first of them. */
  lemma {:induction false} LaterFitIff(carried: nat, lengths: seq<nat>, f: Format, capacity: nat)
    requires f.Valid() && f.PacketBytes() <= capacity && lengths != []
    ensures LaterFit(carried, lengths, f, capacity) <==> carried <= f.PacketBytes()
    decreases |lengths|
  {
    hide CopiesFit, CarriedLength, Format.PacketBytes;
    LeavesLess(carried, lengths[0], f, capacity);
    if |lengths| > 1 {
      LaterFitIff(CarriedLength(carried, lengths[0], f.multiplier, f), lengths[1..], f, capacity);
    }
  }

  /** What a push leaves and whether it fits, by the mode before it. */
  lemma SwitchLeaves(carried: nat, bytes: nat, m0: nat, f: Format, capacity: nat)
    requires f.Valid() && (m0 == 1 || m0 == 2) && f.PacketBytes() <= capacity
    requires carried % f.size == 0 && bytes % f.size == 0
    ensures f.PacketBytes() >= 1
    ensures var P, accepted := f.PacketBytes(), Accepted(carried, bytes, m0, f);
            CopiesFit(carried, bytes, m0, f, capacity) && CarriedLength(carried, bytes, m0, f) <= P <==>
            if bytes == 0 || m0 <= f.multiplier then carried <= P
            else (carried <= P || accepted < 2 * P) && (accepted < P || accepted % P == 0)
  {
    OtherTest(f);
    AcceptedBy(carried, bytes, f);
    CopiesFitIff(carried, bytes, m0, f, capacity);
    var P, accepted := f.PacketBytes(), Accepted(carried, bytes, m0, f);
    if m0 == f.multiplier {
      LeavesLess(carried, bytes, f, capacity);
    } else if m0 > f.multiplier {
      DoubleTest(accepted, P);
      SmallRemainder(carried, bytes, f);
    } else {
      TurnsBounds(accepted, TestBytes(f, m0), P);
    }
  }

  lemma SmallRemainder(carried: nat, bytes: nat, f: Format)
    requires f.Valid() && carried % f.size == 0 && f.PacketBytes() >= 1
    ensures Accepted(carried, bytes, 2, f) == 0 ==> carried <= f.PacketBytes()
    ensures Accepted(carried, 0, 2, f) <= carried
  {
    f.PacketBytesAligned();
    if Accepted(carried, bytes, 2, f) == 0 {
      assert carried < 2 * f.size;
      ModExact(carried, f.size);
      MulSmall(carried / f.size - 1, f.size);
    }
  }

  /** A push that may change the mode and does not end the stream, and then any pushes: all copies stay inside if and
      only if no more than a packet is carried into a packet, and, from complex to scalar, the accepted bytes do not
      reach a packet or are whole packets. */
  lemma SwitchRunIff(carried: nat, bytes: nat, m0: nat, lengths: seq<nat>, f: Format, capacity: nat)
    requires f.Valid() && (m0 == 1 || m0 == 2) && f.PacketBytes() <= capacity && lengths != []
    requires carried % f.size == 0 && bytes % f.size == 0
    ensures f.PacketBytes() >= 1
    ensures var P, accepted := f.PacketBytes(), Accepted(carried, bytes, m0, f);
            && CopiesFit(carried, bytes, m0, f, capacity)
            && LaterFit(CarriedLength(carried, bytes, m0, f), lengths, f, capacity)
            <==>
            if bytes == 0 || m0 <= f.multiplier then carried <= P
            else (carried <= P || accepted < 2 * P) && (accepted < P || accepted % P == 0)
  {
    hide CopiesFit, CarriedLength, Accepted, LaterFit;
    SwitchLeaves(carried, bytes, m0, f, capacity);
    LaterFitIff(CarriedLength(carried, bytes, m0, f), lengths, f, capacity);
  }
}
