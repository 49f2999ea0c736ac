/** The push that changes the mode: its sizes and the loop's test use the old multiplier, its packets
    the new one. Every complex stream that starts while the current SRI is scalar begins like this. */
module ModeSwitch {
  import opened Arithmetic
  import opened ByteStrings
  import opened Timestamps
  import opened Repacketiser
  import opened StreamRun

  /** No scalar is left over in the carried bytes nor in the new ones. */
  predicate Even(carried: nat, bytes: nat, f: Format)
    requires f.Valid()
  {
    carried % (2 * f.size) == 0 && bytes % (2 * f.size) == 0
  }

  /** The loop that tests for the wrong size takes the right number of turns: what remains after the last full
      packet does not reach half a packet (scalar to complex), or there is no full packet (complex to scalar). */
  predicate SameCount(bytes: nat, f: Format)
    requires f.Valid()
  {
    f.PacketBytesAligned();
    if f.multiplier == 2 then 2 * Rest(bytes, f.PacketBytes()) < f.PacketBytes() else bytes < f.PacketBytes()
  }

  /** When the old multiplier does no harm. A push with neither data nor end of stream may meet a left-over scalar. */
  predicate Harmless(carried: nat, bytes: nat, eos: bool, f: Format)
    requires f.Valid()
  {
    SameCount(carried + bytes, f) && (bytes > 0 || eos ==> Even(carried, bytes, f))
  }

  function OtherMultiplier(f: Format): nat { if f.multiplier == 2 then 1 else 2 }

  lemma OtherTest(f: Format)
    requires f.Valid()
    ensures f.multiplier == 2 ==> 2 * TestBytes(f, 1) == f.PacketBytes()
    ensures f.multiplier == 1 ==> TestBytes(f, 2) == 2 * f.PacketBytes()
    ensures TestBytes(f, f.multiplier) == f.PacketBytes()
    ensures f.PacketBytes() >= 1 && TestBytes(f, OtherMultiplier(f)) >= 1
  {
    f.PacketBytesAligned();
    f.(multiplier := OtherMultiplier(f)).PacketBytesAligned();
    assert (2 * f.samples) * f.size == 2 * (f.samples * f.size);
  }

  /** With the same bytes the loop takes as many turns as it should, if and only if SameCount. */
  lemma SameTurns(d: nat, test: nat, P: nat)
    requires P >= 1 && (2 * test == P || test == 2 * P)
    ensures Turns(d, test, P) == Packs(d, P) <==> if 2 * test == P then 2 * Rest(d, P) < P else d < P
  {
    var n, k := Turns(d, test, P), Packs(d, P);
    TurnsBounds(d, test, P);
    PacksRest(d, P);
    if n < k { TimesMono(n, k, P); }
    if k < n { TimesMono(k, n, P); }
    if k == 0 && n == 0 { assert Times(0, P) == 0; }
    if k > 0 { TimesMono(1, k, P); }
  }

  /** The numbers of one push under both multipliers: m0 in force before it, f's own after it. */
  ghost predicate Numbers(carried: nat, bytes: nat, m0: nat, f: Format, n: nat, left: int) {
    && f.Valid() && f.PacketBytes() >= 1
    && n == Turns(Accepted(carried, bytes, m0, f), TestBytes(f, m0), f.PacketBytes())
    && left == Accepted(carried, bytes, m0, f) - Times(n, f.PacketBytes())
  }

  /** All scalars count for scalar data; for complex data a left-over one in either part does not. */
  lemma AcceptedBy(carried: nat, bytes: nat, f: Format)
    requires f.Valid() && carried % f.size == 0 && bytes % f.size == 0
    ensures Accepted(carried, bytes, 1, f) == carried + bytes
    ensures Accepted(carried, bytes, 2, f) <= carried + bytes
    ensures Accepted(carried, bytes, 2, f) == carried + bytes <==> Even(carried, bytes, f)
  {
  }

  lemma EvenNumbers(carried: nat, bytes: nat, f: Format, n0: nat, left0: int, n1: nat, left1: int)
    requires Numbers(carried, bytes, OtherMultiplier(f), f, n0, left0)
    requires Numbers(carried, bytes, f.multiplier, f, n1, left1)
    requires carried % f.size == 0 && bytes % f.size == 0 && Even(carried, bytes, f)
    ensures n0 == n1 <==> SameCount(carried + bytes, f)
    ensures n0 == n1 ==> left0 == left1
  {
    OtherTest(f);
    AcceptedBy(carried, bytes, f);
    hide Format.PacketBytes, TestBytes, Accepted;
    SameTurns(carried + bytes, TestBytes(f, OtherMultiplier(f)), f.PacketBytes());
  }

  /** With a scalar left over the same number of packets leaves different remainders, one of them positive;
      with no packet the larger remainder is everything. */
  lemma OddNumbers(carried: nat, bytes: nat, f: Format, n0: nat, left0: int, n1: nat, left1: int)
    requires Numbers(carried, bytes, OtherMultiplier(f), f, n0, left0)
    requires Numbers(carried, bytes, f.multiplier, f, n1, left1)
    requires carried % f.size == 0 && bytes % f.size == 0 && !Even(carried, bytes, f) && n0 == n1
    ensures left0 != left1 && (left0 > 0 || left1 > 0)
    ensures n0 == 0 ==> 0 <= left0 && 0 <= left1 && (left0 == carried + bytes || left1 == carried + bytes)
  {
    OtherTest(f);
    AcceptedBy(carried, bytes, f);
    hide Format.PacketBytes, TestBytes, Accepted;
    var P := f.PacketBytes();
    TurnsBounds(Accepted(carried, bytes, OtherMultiplier(f), f), TestBytes(f, OtherMultiplier(f)), P);
    TurnsBounds(Accepted(carried, bytes, f.multiplier, f), P, P);
  }

  /** The carried bytes alone, at most a packet of them, a scalar left over among them. */
  lemma OddCarried(carried: nat, f: Format, n0: nat, left0: int, n1: nat, left1: int)
    requires Numbers(carried, 0, OtherMultiplier(f), f, n0, left0) && Numbers(carried, 0, f.multiplier, f, n1, left1)
    requires carried % f.size == 0 && !Even(carried, 0, f) && carried <= f.PacketBytes()
    ensures n0 == n1 <==> SameCount(carried, f)
  {
    OtherTest(f);
    AcceptedBy(carried, 0, f);
    var P, T := f.PacketBytes(), TestBytes(f, OtherMultiplier(f));
    if f.multiplier == 2 {
      WholePackets(1, f);
      assert Times(0, P) == 0 && Times(1, P) == P;
      assert carried < P;
      PacksUnique(carried, 0, carried, P);
    } else {
      PacksRest(carried, P);
    }
  }

  /** For any carried bytes up to a packet: the packets, the bytes carried on and the flush are what they would be
      had the mode been in force before the push, if and only if the push is harmless. */
  lemma ModeSwitchIff(c: seq<Byte>, push: Push, beyond: seq<Byte>, f: Format, first: nat)
    requires LegalPush(push, f) && |beyond| >= f.PacketBytes() && |c| % f.size == 0 && |c| <= f.PacketBytes()
    ensures PushOutcome(c, push, beyond, OtherMultiplier(f), f, first) ==
            PushOutcome(c, push, beyond, f.multiplier, f, first)
            <==> Harmless(|c|, |push.data|, push.eos, f)
  {
    hide PushOutcome, Packets, Flush, CarryOver, Format.PacketBytes, TestBytes, Whole, Accepted, SameCount, Even;
    var mem, m0, b := push.data + beyond, OtherMultiplier(f), |push.data|;
    OtherTest(f);
    var n0, left0 := OutcomeParts(c, push, mem, beyond, m0, f, first);
    var n1, left1 := OutcomeParts(c, push, mem, beyond, f.multiplier, f, first);
    if Even(|c|, b, f) {
      EvenNumbers(|c|, b, f, n0, left0, n1, left1);
    } else if n0 == n1 {
      OddNumbers(|c|, b, f, n0, left0, n1, left1);
      OddParts(c, push, mem, f, first, n0, left0, left1);
    }
    if !Even(|c|, b, f) && b == 0 && !push.eos {
      OddCarried(|c|, f, n0, left0, n1, left1);
    }
  }

  /** What OutcomeParts says of one remainder. */
  predicate InMemory(c: seq<Byte>, mem: seq<Byte>, bytes: nat, f: Format, n: nat, left: int) {
    && |c| + left <= |c + mem| && Times(n, f.PacketBytes()) + left <= |c + mem|
    && (bytes == 0 ==> if n > 0 then left <= 0 else left <= |c|)
  }

  lemma CarryIs(c: seq<Byte>, mem: seq<Byte>, bytes: nat, f: Format, n: nat, left: int)
    requires InMemory(c, mem, bytes, f, n, left)
    ensures |CarryOver(c, mem, bytes, f, n, left)| ==
            if left > 0 && bytes > 0 then left else if n > 0 then 0 else |c|
    ensures bytes == 0 && n == 0 ==> CarryOver(c, mem, bytes, f, n, left) == c
  {
  }

  /** The same number of packets but different remainders shows in the carried bytes or the flush, unless the push
      is empty and the stream goes on. */
  lemma OddParts(c: seq<Byte>, push: Push, mem: seq<Byte>, f: Format, first: nat, n: nat, left0: int, left1: int)
    requires f.Valid() && left0 != left1 && (left0 > 0 || left1 > 0)
    requires InMemory(c, mem, |push.data|, f, n, left0) && InMemory(c, mem, |push.data|, f, n, left1)
    requires n == 0 ==> 0 <= left0 && 0 <= left1 && (left0 == |c| + |push.data| || left1 == |c| + |push.data|)
    ensures var b := |push.data|;
            var carry0, carry1 := CarryOver(c, mem, b, f, n, left0), CarryOver(c, mem, b, f, n, left1);
            var flush0 := Flush(carry0, |c|, push, f, first, n, left0);
            var flush1 := Flush(carry1, |c|, push, f, first, n, left1);
            carry0 == carry1 && flush0 == flush1 <==> b == 0 && !push.eos
  {
    hide Stamp, Index, CarryOver;
    CarryIs(c, mem, |push.data|, f, n, left0);
    CarryIs(c, mem, |push.data|, f, n, left1);
    if |push.data| == 0 && push.eos {
      var flush0, flush1 := Flush(c, |c|, push, f, first, n, left0), Flush(c, |c|, push, f, first, n, left1);
      assert left0 > 0 ==> |flush0[0].payload| == left0;
      assert left1 > 0 ==> |flush1[0].payload| == left1;
    }
  }
}
