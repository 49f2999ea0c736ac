/** Payload sizing: `createPayload` with its clamp at 65515 bytes, `memoryManagement`
    and the part of `advancedConfigurationChanged` that sets the payload size. */
module PayloadSizing {
  import opened Arithmetic

  const MAX_PACKET: int := 65515

  /** The settings that decide how many bytes surround the payload. */
  datatype Encapsulation = Encapsulation(
    udp: bool, vrlFrames: bool, crc: bool,
    dataPackets: bool, streamId: bool, classId: bool, timeStamp: bool, trailer: bool)
  {
    function Overhead(): nat {
      (if udp then 8 else 20) + (if vrlFrames then 12 else 0) + (if crc then 4 else 0) +
      (if !dataPackets then 0
       else 4 + (if streamId then 4 else 0) + (if classId then 8 else 0) +
            (if timeStamp then 12 else 0) + (if trailer then 4 else 0))
    }

    function PacketBytes(payload: int): int { Overhead() + (if dataPackets then payload else 0) }

    /** How far a packet with this payload is over the limit; zero or less when it fits. */
    function Excess(payload: int): int { PacketBytes(payload) - MAX_PACKET }
  }

  /** The bytes of one sample: scalars per sample times scalar size. */
  type Frame = f: int | 1 <= f witness 1

  /** Where the clamp leaves the payload: the excess keeps its residue and ends between f + 1 and 2f. */
  function Clamped(e: Encapsulation, f: Frame, payload: int): int {
    var d := e.Excess(payload);
    if d <= 0 then payload else payload - f * ((d - 1) / f - 1)
  }

  class PayloadSettings {
    var vita49PayloadSize: int
    var samplesPerPacket: int
    var reportedPacketSize: int
    var spareCapacity: nat
    var createMem: bool

    constructor ()
      ensures vita49PayloadSize == 1428 && samplesPerPacket == 0 && createMem && spareCapacity == 0
    {
      vita49PayloadSize, samplesPerPacket, reportedPacketSize := 1428, 0, 0;
      spareCapacity, createMem := 0, true;
    }

    /** advancedConfigurationChanged: the requested size is capped. */
    method Configure(maxPayloadSize: int)
      modifies `vita49PayloadSize
      ensures vita49PayloadSize <= maxPayloadSize && vita49PayloadSize <= 65503
      ensures vita49PayloadSize == maxPayloadSize || vita49PayloadSize == 65503
    {
      if maxPayloadSize >= 65503 {
        vita49PayloadSize := 65503;
      } else {
        vita49PayloadSize := maxPayloadSize;
      }
    }

    /** memoryManagement: the spare buffer gets 28 bytes more than the payload size, once. */
    method MemoryManagement()
      requires vita49PayloadSize >= -28
      modifies `spareCapacity, `createMem
      ensures !createMem && spareCapacity == vita49PayloadSize + 28
    {
      spareCapacity := vita49PayloadSize + 20 + 8;
      createMem := false;
    }

    /** The part of initialize_values that concerns the payload, at every teardown; the spare buffer stays. */
    method InitializeValues()
      modifies `vita49PayloadSize, `samplesPerPacket
      ensures vita49PayloadSize == 1428 && samplesPerPacket == 0
    {
      vita49PayloadSize, samplesPerPacket := 1428, 0;
    }

    /** createPayload: mode is 0 for scalar and 1 for complex data. */
    method CreatePayload(e: Encapsulation, size: int, mode: nat)
      requires size > 0
      modifies `vita49PayloadSize, `samplesPerPacket, `reportedPacketSize
      ensures vita49PayloadSize == Clamped(e, (mode + 1) * size, old(vita49PayloadSize))
      ensures samplesPerPacket == TruncDiv(vita49PayloadSize, (mode + 1) * size)
      ensures reportedPacketSize ==
              if e.Excess(old(vita49PayloadSize)) > 0 then MAX_PACKET else e.PacketBytes(old(vita49PayloadSize))
    {
      hide TruncDiv;
      var difference := 0;
      var bytesPerPacket := AddUp(e);
      if bytesPerPacket > 65515 {
        difference := bytesPerPacket - 65515;
        bytesPerPacket := 65515;
      }
      reportedPacketSize := bytesPerPacket;
      var frame: Frame := FrameOf(mode, size);
      hide FrameOf;
      if difference > 0 {
        var subtractBytes := (difference - frame) - 1 - (difference - 1) % frame;
        WholeFramesOff(difference, frame);
        vita49PayloadSize := vita49PayloadSize - subtractBytes;
      }
      samplesPerPacket := TruncDiv(vita49PayloadSize, frame);
    }

    /** The parts of a packet, one by one. */
    method AddUp(e: Encapsulation) returns (bytesPerPacket: int)
      ensures bytesPerPacket == e.PacketBytes(vita49PayloadSize)
    {
      bytesPerPacket := if e.udp then 8 else 20;
      if e.vrlFrames { bytesPerPacket := bytesPerPacket + 12; }
      if e.crc { bytesPerPacket := bytesPerPacket + 4; }
      if e.dataPackets {
        bytesPerPacket := bytesPerPacket + 4;
        if e.streamId { bytesPerPacket := bytesPerPacket + 4; }
        if e.classId { bytesPerPacket := bytesPerPacket + 8; }
        if e.timeStamp { bytesPerPacket := bytesPerPacket + 4 + 8; }
        bytesPerPacket := bytesPerPacket + vita49PayloadSize;
        if e.trailer { bytesPerPacket := bytesPerPacket + 4; }
      }
    }
  }

  function FrameOf(mode: nat, size: int): (f: Frame)
    requires size > 0
    ensures f >= size && f == (mode + 1) * size
  {
    assert (mode + 1) * size == mode * size + size;
    (mode + 1) * size
  }

  /** The remainder formula takes off whole frames. */
  lemma WholeFramesOff(difference: int, f: Frame)
    requires difference > 0
    ensures (difference - f) - 1 - (difference - 1) % f == f * ((difference - 1) / f - 1)
  {
    var q := (difference - 1) / f;
    assert difference - 1 == f * q + (difference - 1) % f && f * (q - 1) == f * q - f;
  }

  lemma TwoScalars(f: Frame, q: int)
    ensures (2 * f) * q == f * (2 * q)
  {
  }

  /** A non-negative payload cut down to whole frames. */
  lemma WholeFrames(f: Frame, c: int)
    requires c >= 0
    ensures c - f < TruncDiv(c, f) * f <= c
  {
    assert c == f * (c / f) + c % f;
    assert (c / f) * f == f * (c / f);
  }

  /** The clamp moves the payload by whole frames and leaves an excess of at least one frame
      and a byte, at most two frames: a packet over the limit stays over the limit. */
  lemma {:induction false} ClampLeaves(e: Encapsulation, f: Frame, payload: int)
    requires e.dataPackets
    ensures (payload - Clamped(e, f, payload)) % f == 0
    ensures e.Excess(payload) >= 1 ==> f + 1 <= e.Excess(Clamped(e, f, payload)) <= 2 * f
    ensures e.Excess(payload) <= 0 ==> Clamped(e, f, payload) == payload
  {
    var d := e.Excess(payload);
    if d >= 1 {
      var q := (d - 1) / f;
      WholeFramesOff(d, f);
      assert e.Excess(Clamped(e, f, payload)) == 1 + (d - 1) % f + f;
      ModUnique(f * (q - 1), f, q - 1, 0);
    }
  }

  /** The size limit is met after createPayload exactly when it was met before, and a packet
      over it is still over it when its payload is cut down to whole frames. */
  lemma LimitMetIff(e: Encapsulation, f: Frame, payload: int)
    requires e.dataPackets
    ensures e.PacketBytes(Clamped(e, f, payload)) <= MAX_PACKET <==> e.PacketBytes(payload) <= MAX_PACKET
    ensures e.PacketBytes(payload) > MAX_PACKET ==>
              e.PacketBytes(TruncDiv(Clamped(e, f, payload), f) * f) > MAX_PACKET
  {
    ClampLeaves(e, f, payload);
    var c := Clamped(e, f, payload);
    if e.Excess(payload) >= 1 {
      WholeFrames(f, c);
    }
  }

  /** A payload that misses the limit: the largest one there is, complex 16-bit samples, everything enabled. Of the
      44 bytes too many 8 are left. */
  lemma LimitMissed()
    ensures var e := Encapsulation(true, true, true, true, true, true, true, true);
            e.Excess(65503) == 44 && Clamped(e, 4, 65503) == 65467 && e.PacketBytes(65467) == MAX_PACKET + 8
  {
  }

  /** A second call under the same settings changes nothing. */
  lemma ClampIdempotent(e: Encapsulation, f: Frame, payload: int)
    requires e.dataPackets
    ensures Clamped(e, f, Clamped(e, f, payload)) == Clamped(e, f, payload)
  {
    ClampLeaves(e, f, payload);
    var d := e.Excess(Clamped(e, f, payload));
    if e.Excess(payload) >= 1 {
      ModUnique(d - 1, f, 1, d - 1 - f);
      assert (d - 1) / f == 1;
    }
  }

  /** The payload size after createPayload has run once for each mode of a stream. */
  function PayloadRun(e: Encapsulation, size: Frame, modes: seq<bool>, payload: int): int {
    if modes == [] then payload
    else
      var before := PayloadRun(e, size, modes[..|modes| - 1], payload);
      Clamped(e, if modes[|modes| - 1] then 2 * size else size, before)
  }

  /** Under one encapsulation and one scalar size the excess stays congruent to the first one
      and never passes four scalars. */
  lemma {:induction false} PayloadRunExcess(e: Encapsulation, size: Frame, modes: seq<bool>, payload: int)
    returns (k: int)
    requires e.dataPackets
    ensures PayloadRun(e, size, modes, payload) == payload + size * k
    ensures PayloadRun(e, size, modes, payload) == payload ||
            (e.Excess(payload) >= 1 && 1 <= e.Excess(PayloadRun(e, size, modes, payload)) <= 4 * size)
  {
    k := 0;
    if modes != [] {
      var before := PayloadRun(e, size, modes[..|modes| - 1], payload);
      var k0 := PayloadRunExcess(e, size, modes[..|modes| - 1], payload);
      var f: Frame := if modes[|modes| - 1] then 2 * size else size;
      ClampLeaves(e, f, before);
      if e.Excess(before) >= 1 {
        var q := (e.Excess(before) - 1) / f - 1;
        k := k0 - (if modes[|modes| - 1] then 2 * q else q);
        TwoScalars(size, q);
        assert size * k == size * k0 - size * (k0 - k);
        assert f * q == size * (k0 - k);
      } else {
        k := k0;
      }
    }
  }

  /** Over any number of createPayload calls, in either mode, the payload size grows by less
      than the spare buffer's slack: a packet's payload always fits the buffer allocated for it. */
  lemma SpareBufferSuffices(e: Encapsulation, size: Frame, modes: seq<bool>, payload: int, reserved: int)
    requires e.dataPackets && size <= 8
    requires 0 <= payload <= reserved
    ensures var p := PayloadRun(e, size, modes, payload);
            && p <= payload + 24
            && (forall f: Frame :: TruncDiv(p, f) * f <= reserved + 28)
  {
    var p := PayloadRun(e, size, modes, payload);
    var k := PayloadRunExcess(e, size, modes, payload);
    if p != payload {
      assert size * k <= 4 * size - 1 && size * (k - 3) == size * k - 3 * size;
      MulSmall(k - 3, size);
    }
    forall f: Frame ensures TruncDiv(p, f) * f <= reserved + 28 {
      WholeFrames(f, p);
    }
  }

  /** No createPayload, under whatever encapsulation and sample size, changes the payload if and only if it is at
      most 65447 bytes: 68 bytes are the most that can be around it. */
  lemma PayloadStableIff(payload: int)
    ensures (forall e: Encapsulation, f: Frame :: e.dataPackets ==> Clamped(e, f, payload) == payload) <==>
            payload <= MAX_PACKET - 68
  {
    var full := Encapsulation(false, true, true, true, true, true, true, true);
    var d := full.Excess(payload);
    if payload > MAX_PACKET - 68 {
      var f: Frame := if d <= 2 then 16 else 1;
      assert Clamped(full, f, payload) != payload;
    }
  }

  /** The slack does not cover encapsulations that change between the calls: three calls for complex doubles, each
      with 16 bytes less around the payload, make it outgrow the buffer allocated for it. */
  lemma EncapsulationCanOutgrow()
    ensures var a := Encapsulation(true, true, true, true, true, true, true, true);
            var b := Encapsulation(true, false, false, true, true, true, true, true);
            var c := Encapsulation(true, false, false, true, false, false, true, false);
            var p := Clamped(c, 16, Clamped(b, 16, Clamped(a, 16, 65460)));
            p == 65508 && TruncDiv(p, 16) * 16 > 65460 + 28
  {
  }
}
