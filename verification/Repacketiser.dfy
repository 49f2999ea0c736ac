/** The repacketising engine: one call of `singleService` once it has a push in hand, with the
    spare buffer changed in place. What memory holds behind the push's buffer is a parameter,
    because the code reads past the buffer's end in two cases. */
module Repacketiser {
  import opened Timestamps
  import opened Arithmetic
  import opened ByteStrings

  /** One IF data packet, as far as this component fills it in. */
  datatype Packet = Packet(payload: seq<Byte>, time: TimeStamp, count: nat)

  /** A BULKIO push, its scalars laid out as bytes. */
  datatype Push = Push(data: seq<Byte>, time: PrecisionUTCTime, eos: bool)

  /** What the SRI merge and createPayload leave behind; NoMerge when no merge was due. */
  datatype Merge = NoMerge | Merged(mode: nat, xdelta: real, samplesPerPacket: int)

  /** How samples are cut: scalar size in bytes, scalars per sample, samples per packet, sample period. */
  datatype Format = Format(size: nat, multiplier: nat, samples: nat, xdelta: real) {
    predicate Valid() { size >= 1 && samples >= 1 && (multiplier == 1 || multiplier == 2) }

    function PacketScalars(): nat { if multiplier == 2 then 2 * samples else samples }

    function PacketBytes(): nat { PacketScalars() * size }

    lemma PacketBytesAligned()
      requires Valid()
      ensures PacketBytes() >= size && PacketBytes() % size == 0 && PacketBytes() / size == PacketScalars()
    {
      MulSmall(PacketScalars(), size);
      MulMod(PacketScalars(), size);
    }
  }

  function SampleBytes(size: nat, multiplier: nat): nat { if multiplier == 2 then 2 * size else size }

  /** The bytes of whole samples among `bytes`: an odd scalar of complex data does not count. */
  function Whole(bytes: nat, size: nat, multiplier: nat): nat
    requires size >= 1
  {
    bytes - bytes % SampleBytes(size, multiplier)
  }

  /** Scalars and samples among bytes that are whole samples. */
  lemma SampleScalars(bytes: nat, size: nat, multiplier: nat)
    requires size >= 1 && (multiplier == 1 || multiplier == 2) && bytes % SampleBytes(size, multiplier) == 0
    ensures bytes % size == 0 && bytes / size == (bytes / SampleBytes(size, multiplier)) * multiplier
  {
    var q := bytes / SampleBytes(size, multiplier);
    ModExact(bytes, SampleBytes(size, multiplier));
    assert q * (2 * size) == (q * 2) * size;
    MulMod(q * multiplier, size);
  }

  /** The code's sample count, turned back into bytes. */
  lemma WholeIsSampleCount(bytes: nat, size: nat, multiplier: nat)
    requires size >= 1 && bytes % size == 0 && (multiplier == 1 || multiplier == 2)
    ensures Whole(bytes, size, multiplier) == (((bytes / size) / multiplier) * multiplier) * size
    ensures Whole(bytes, size, multiplier) % size == 0
  {
    var q := bytes / size;
    var s := q / multiplier;
    ModExact(bytes, size);
    if multiplier == 2 {
      var r := q - 2 * s;
      assert q * size == (2 * s) * size + r * size;
      assert s * (2 * size) == (2 * s) * size;
      assert bytes == (2 * size) * s + r * size;
      ModUnique(bytes, 2 * size, s, r * size);
    } else {
      assert q / 1 == q && q * 1 == q;
    }
    MulMod(s * multiplier, size);
  }

  /** The bytes this push works on, counted with the multiplier m0 in force before its SRI was merged. */
  function Accepted(carried: nat, bytes: nat, m0: nat, f: Format): nat
    requires f.Valid()
  {
    Whole(carried, f.size, m0) + Whole(bytes, f.size, m0)
  }

  /** The loop tests against a packet measured with the old multiplier. */
  function TestBytes(f: Format, m0: nat): nat { f.(multiplier := m0).PacketBytes() }

  /** How many packets a push completes. */
  function Completed(carried: nat, bytes: nat, m0: nat, f: Format): nat
    requires f.Valid()
  {
    f.PacketBytesAligned();
    Turns(Accepted(carried, bytes, m0, f), TestBytes(f, m0), f.PacketBytes())
  }

  /** What is left of the accepted bytes; negative when the last packet took more than there was. */
  function Left(carried: nat, bytes: nat, m0: nat, f: Format): int
    requires f.Valid()
  {
    Accepted(carried, bytes, m0, f) - Times(Completed(carried, bytes, m0, f), f.PacketBytes())
  }

  /** The loop's element index after k packets. */
  function Index(carried: nat, f: Format, k: nat): int
    requires f.Valid()
  {
    if k == 0 then 0 else Times(k, f.PacketScalars()) - carried / f.size
  }

  function TimeOf(carried: nat, push: Push, f: Format, k: nat): TimeStamp
    requires f.Valid()
  {
    if k == 0 && carried > 0 then Stamp(push.time, f.xdelta, BackOffset(carried / f.size, f.multiplier))
    else Stamp(push.time, f.xdelta, TruncDiv(Index(carried, f, k), f.multiplier))
  }

  /** Part of memory; nothing when it is not mapped. */
  function Slice(view: seq<Byte>, from: int, to: int): seq<Byte> {
    if 0 <= from <= to <= |view| then view[from..to] else []
  }

  /** The k-th packet is the k-th slice of the carried bytes, the push, and what follows it in memory,
      laid end to end. */
  function NthPacket(view: seq<Byte>, carried: nat, push: Push, f: Format, first: nat, k: nat): Packet
    requires f.Valid()
  {
    Packet(Slice(view, Times(k, f.PacketBytes()), Times(k + 1, f.PacketBytes())),
           TimeOf(carried, push, f, k), (first + k) % 16)
  }

  function Packets(view: seq<Byte>, carried: nat, push: Push, f: Format, first: nat, n: nat): (r: seq<Packet>)
    requires f.Valid()
    ensures |r| == n
  {
    if n == 0 then []
    else Packets(view, carried, push, f, first, n - 1) + [NthPacket(view, carried, push, f, first, n - 1)]
  }

  datatype Outcome = Outcome(packets: seq<Packet>, carry: seq<Byte>, flush: seq<Packet>)

  /** When the copies of one call have a meaning: sizes are whole scalars, a packet that begins with carried bytes
      holds them all, and as much as a packet or the carried bytes can be read behind the push. */
  predicate Defined(carried: nat, push: Push, beyond: seq<Byte>, m0: nat, f: Format) {
    && f.Valid() && (m0 == 1 || m0 == 2)
    && carried % f.size == 0 && |push.data| % f.size == 0
    && (carried > 0 && Completed(carried, |push.data|, m0, f) > 0 ==> carried <= f.PacketBytes())
    && |beyond| >= f.PacketBytes() && |beyond| >= carried
  }

  /** Both copies of one call stay inside the spare buffer: the one that completes carried bytes to a packet, whose
      unsigned length wraps around when more than a packet is carried, and the one that saves the remainder. */
  predicate CopiesFit(carried: nat, bytes: nat, m0: nat, f: Format, capacity: nat)
    requires f.Valid()
  {
    && (carried > 0 && Completed(carried, bytes, m0, f) > 0 ==> carried <= f.PacketBytes() <= capacity)
    && (bytes > 0 ==> Left(carried, bytes, m0, f) <= capacity)
  }

  lemma FitIsDefined(carried: nat, push: Push, beyond: seq<Byte>, m0: nat, f: Format, capacity: nat)
    requires f.Valid() && (m0 == 1 || m0 == 2) && carried % f.size == 0 && |push.data| % f.size == 0
    requires |beyond| >= f.PacketBytes() && |beyond| >= carried
    requires CopiesFit(carried, |push.data|, m0, f, capacity)
    ensures Defined(carried, push, beyond, m0, f)
  {
  }

  /** The bytes carried on: without a full packet the new bytes land on top of the carried ones. */
  function CarryOver(c: seq<Byte>, mem: seq<Byte>, bytes: nat, f: Format, n: nat, left: int): seq<Byte> {
    if left > 0 && bytes > 0 then
      var from := if n > 0 then Times(n, f.PacketBytes()) else |c|;
      Slice(c + mem, from, from + left)
    else if n > 0 then [] else c
  }

  /** The short last packet, cut from the spare buffer at end of stream. */
  function Flush(carry: seq<Byte>, carried: nat, push: Push, f: Format, first: nat, n: nat, left: int): seq<Packet>
    requires f.Valid()
  {
    if push.eos && left > 0 then
      [Packet(Slice(carry, 0, left), Stamp(push.time, f.xdelta, TruncDiv(Index(carried, f, n), f.multiplier)),
              (first + n) % 16)]
    else []
  }

  /** The outcome of one push: packets completed, bytes carried on, and at end of stream the short last packet. */
  function PushOutcome(c: seq<Byte>, push: Push, beyond: seq<Byte>, m0: nat, f: Format, first: nat): Outcome
    requires f.Valid()
  {
    var mem := push.data + beyond;
    var n := Completed(|c|, |push.data|, m0, f);
    var left := Left(|c|, |push.data|, m0, f);
    var carry := CarryOver(c, mem, |push.data|, f, n, left);
    Outcome(Packets(c + mem, |c|, push, f, first, n), carry, Flush(carry, |c|, push, f, first, n, left))
  }

  /** Every read of one call lies in view, and what is left is less than the tested size. */
  lemma Reach(carried: nat, push: Push, beyond: seq<Byte>, m0: nat, f: Format)
    requires Defined(carried, push, beyond, m0, f)
    ensures var n, left := Completed(carried, |push.data|, m0, f), Left(carried, |push.data|, m0, f);
            && left < TestBytes(f, m0)
            && Times(n, f.PacketBytes()) <= carried + |push.data| + |beyond|
            && left <= carried + |push.data|
            && (n > 0 ==> Accepted(carried, |push.data|, m0, f) >= TestBytes(f, m0))
            && (|push.data| == 0 ==> if n > 0 then left <= 0 else left <= carried)
    ensures f.PacketBytes() >= 1
  {
    f.PacketBytesAligned();
    f.(multiplier := m0).PacketBytesAligned();
    TurnsBounds(Accepted(carried, |push.data|, m0, f), TestBytes(f, m0), f.PacketBytes());
    var n := Completed(carried, |push.data|, m0, f);
    if n > 0 { TimesMono(1, n, f.PacketBytes()); }
  }

  /** The outcome by its parts, with every bound the copies need. */
  lemma OutcomeParts(c: seq<Byte>, push: Push, mem: seq<Byte>, beyond: seq<Byte>, m0: nat, f: Format, first: nat)
    returns (n: nat, left: int)
    requires Defined(|c|, push, beyond, m0, f) && mem == push.data + beyond
    ensures n == Completed(|c|, |push.data|, m0, f) && left == Left(|c|, |push.data|, m0, f)
    ensures n == Turns(Accepted(|c|, |push.data|, m0, f), TestBytes(f, m0), f.PacketBytes())
    ensures left == Accepted(|c|, |push.data|, m0, f) - Times(n, f.PacketBytes())
    ensures left < TestBytes(f, m0) && Times(n, f.PacketBytes()) <= |c + mem| && f.PacketBytes() >= 1
    ensures |c| + left <= |c + mem| && Times(n, f.PacketBytes()) + left <= |c + mem|
    ensures |push.data| == 0 ==> if n > 0 then left <= 0 else left <= |c|
    ensures n > 0 ==> |c| <= f.PacketBytes()
    ensures PushOutcome(c, push, beyond, m0, f, first) ==
            Outcome(Packets(c + mem, |c|, push, f, first, n), CarryOver(c, mem, |push.data|, f, n, left),
                    Flush(CarryOver(c, mem, |push.data|, f, n, left), |c|, push, f, first, n, left))
  {
    Reach(|c|, push, beyond, m0, f);
    n, left := Completed(|c|, |push.data|, m0, f), Left(|c|, |push.data|, m0, f);
  }

  /** What is left is whole scalars. */
  lemma LeftAligned(carried: nat, bytes: nat, m0: nat, f: Format)
    requires f.Valid() && (m0 == 1 || m0 == 2) && carried % f.size == 0 && bytes % f.size == 0
    ensures Left(carried, bytes, m0, f) % f.size == 0
  {
    WholeIsSampleCount(carried, f.size, m0);
    WholeIsSampleCount(bytes, f.size, m0);
    ModDifference(Whole(carried, f.size, m0), Whole(bytes, f.size, m0), f.size);
    var n := Completed(carried, bytes, m0, f);
    TimesTimes(n, f.PacketScalars(), f.size);
    MulMod(Times(n, f.PacketScalars()), f.size);
    ModDifference(Accepted(carried, bytes, m0, f), Times(n, f.PacketBytes()), f.size);
  }

  lemma CarryAligned(c: seq<Byte>, mem: seq<Byte>, bytes: nat, f: Format, n: nat, left: int)
    requires f.Valid() && |c| % f.size == 0 && left % f.size == 0
    ensures |CarryOver(c, mem, bytes, f, n, left)| % f.size == 0
  {
  }

  /** What is carried on is whole scalars again. */
  lemma OutcomeAligned(c: seq<Byte>, push: Push, beyond: seq<Byte>, m0: nat, f: Format, first: nat)
    requires Defined(|c|, push, beyond, m0, f)
    ensures |PushOutcome(c, push, beyond, m0, f, first).carry| % f.size == 0
  {
    hide Packets, Flush, CarryOver, Completed, Left;
    LeftAligned(|c|, |push.data|, m0, f);
    CarryAligned(c, push.data + beyond, |push.data|, f, Completed(|c|, |push.data|, m0, f),
                 Left(|c|, |push.data|, m0, f));
  }

  /** A slice past the carried bytes lies in the push. */
  lemma InPush(c: seq<Byte>, mem: seq<Byte>, at: nat, bytes: nat)
    requires |c| <= at && at + bytes <= |c + mem|
    ensures (c + mem)[at..at + bytes] == mem[at - |c|..at - |c| + bytes]
  {
  }

  /** Bytes of the code's own element index. */
  lemma IndexBytes(carried: nat, f: Format, k: nat)
    requires f.Valid() && carried % f.size == 0
    ensures Index(carried, f, k) * f.size == if k == 0 then 0 else Times(k, f.PacketBytes()) - carried
  {
    if k > 0 {
      TimesTimes(k, f.PacketScalars(), f.size);
      ModExact(carried, f.size);
      var a, b := Times(k, f.PacketScalars()), carried / f.size;
      MulSub(a, b, f.size);
    }
  }

  /** Where the remainder stands in what is cut. */
  lemma RemainderAt(carried: nat, f: Format, n: nat, left: nat, length: nat) returns (at: nat)
    requires f.Valid() && carried % f.size == 0 && (n > 0 ==> carried <= f.PacketBytes())
    requires carried + left <= length && Times(n, f.PacketBytes()) + left <= length
    ensures at == if n > 0 then Times(n, f.PacketBytes()) else carried
    ensures carried <= at && at + left <= length && Index(carried, f, n) * f.size == at - carried
  {
    IndexBytes(carried, f, n);
    hide Index, Format.PacketBytes;
    if n > 0 { TimesMono(1, n, f.PacketBytes()); }
    at := if n > 0 then Times(n, f.PacketBytes()) else carried;
  }

  lemma TurnArithmetic(carried: nat, f: Format, k: nat)
    requires f.Valid() && carried % f.size == 0 && carried <= f.PacketBytes()
    ensures Times(k + 1, f.PacketBytes()) == Times(k, f.PacketBytes()) + f.PacketBytes()
    ensures Index(carried, f, k + 1) ==
            Index(carried, f, k) + f.PacketScalars() - (if k == 0 then carried / f.size else 0)
    ensures k > 0 || carried == 0 ==> carried <= Times(k, f.PacketBytes())
    ensures k > 0 || carried == 0 ==> Index(carried, f, k) * f.size == Times(k, f.PacketBytes()) - carried
  {
    IndexBytes(carried, f, k);
    assert Times(k + 1, f.PacketScalars()) == Times(k, f.PacketScalars()) + f.PacketScalars();
    if k > 0 { TimesMono(1, k, f.PacketBytes()); }
  }

  /** The state `singleService` works on; mode and xdelta are the two fields of the current SRI it reads. */
  class SinkVITA49 {
    var spareBuffer: array<Byte>
    var leftOverDataSize: nat
    var dataIndex: int
    var packetCount: nat
    var samplesPerPacket: int
    var mode: nat
    var xdelta: real
    var workQueue2: seq<Packet>

    ghost predicate Valid()
      reads this
    {
      mode <= 1 && dataIndex == 0 && leftOverDataSize <= spareBuffer.Length
    }

    ghost function Carried(): seq<Byte>
      requires Valid()
      reads this, spareBuffer
    {
      spareBuffer[..leftOverDataSize]
    }

    constructor (maxPacketLength: nat)
      ensures Valid() && Carried() == [] && workQueue2 == []
      ensures fresh(spareBuffer) && spareBuffer.Length == maxPacketLength + 28
      ensures packetCount == 0 && samplesPerPacket == 0 && mode == 0 && xdelta == 1.0
    {
      spareBuffer := new Byte[maxPacketLength + 20 + 8];
      leftOverDataSize, dataIndex, packetCount, samplesPerPacket := 0, 0, 0, 0;
      mode, xdelta, workQueue2 := 0, 1.0, [];
    }

    /** memcpy into the spare buffer. */
    method Memcpy(at: nat, source: seq<Byte>)
      requires at + |source| <= spareBuffer.Length
      modifies spareBuffer
      ensures spareBuffer[..at] == old(spareBuffer[..at])
      ensures spareBuffer[at..at + |source|] == source
    {
      forall i | 0 <= i < |source| {
        spareBuffer[at + i] := source[i];
      }
    }

    /** createPacket: the packet record with its time and 4-bit count. */
    method CreatePacket(time: TimeStamp) returns (packet: Packet)
      modifies `packetCount
      ensures packet == Packet([], time, old(packetCount) % 16) && packetCount == old(packetCount) + 1
    {
      packet := Packet([], time, packetCount % 16);
      packetCount := packetCount + 1;
    }

    /** The fields initialize_values resets at teardown. */
    method TearDown()
      modifies `leftOverDataSize, `dataIndex, `packetCount, `samplesPerPacket
      ensures leftOverDataSize == 0 && dataIndex == 0 && packetCount == 0 && samplesPerPacket == 0
    {
      dataIndex, packetCount, samplesPerPacket, leftOverDataSize := 0, 0, 0, 0;
    }

    /** A packet that begins with carried bytes: they are completed in the spare buffer, and the
        packet's time is taken back by as many samples. */
    method CarriedTurn(push: Push, ghost c: seq<Byte>, mem: seq<Byte>, f: Format, P: nat)
      requires f.Valid() && f.xdelta == xdelta && f.samples == samplesPerPacket && f.multiplier == mode + 1
      requires dataIndex == 0 && leftOverDataSize == |c| > 0
      requires |c| <= P == f.PacketBytes() <= spareBuffer.Length && P <= |c + mem|
      requires spareBuffer[..|c|] == c
      modifies `leftOverDataSize, `dataIndex, `packetCount, `workQueue2, spareBuffer
      ensures dataIndex == f.PacketScalars() - |c| / f.size && leftOverDataSize == 0
      ensures packetCount == old(packetCount) + 1
      ensures workQueue2 == old(workQueue2) + [Packet((c + mem)[0..P], TimeOf(|c|, push, f, 0), old(packetCount) % 16)]
    {
      hide Stamp, BackOffset, TruncDiv, Index, f.PacketBytes, f.PacketScalars;
      var ts, nextTimeStamp := CalcNextTimeStamp(push.time, xdelta, TruncDiv(dataIndex, mode + 1));
      var vrtPacket := CreatePacket(nextTimeStamp);
      Memcpy(leftOverDataSize, mem[..P - leftOverDataSize]);
      assert spareBuffer[..P] == spareBuffer[..|c|] + spareBuffer[|c|..P];
      assert (c + mem)[0..P] == c + mem[..P - |c|];
      ts, nextTimeStamp := CalcNextTimeStamp(push.time, xdelta, BackOffset(leftOverDataSize / f.size, mode + 1));
      vrtPacket := vrtPacket.(time := nextTimeStamp, payload := spareBuffer[..P]);
      dataIndex := dataIndex + f.PacketScalars() - leftOverDataSize / f.size;
      leftOverDataSize := 0;
      workQueue2 := workQueue2 + [vrtPacket];
    }

    /** A packet cut from the push itself. */
    method PlainTurn(push: Push, ghost c: seq<Byte>, mem: seq<Byte>, f: Format, P: nat, ghost at: nat)
      requires f.Valid() && f.xdelta == xdelta && f.samples == samplesPerPacket && f.multiplier == mode + 1
      requires leftOverDataSize == 0 && P == f.PacketBytes()
      requires dataIndex * f.size == at - |c| && |c| <= at && at + P <= |c + mem|
      modifies `dataIndex, `packetCount, `workQueue2
      ensures dataIndex == old(dataIndex) + f.PacketScalars() && packetCount == old(packetCount) + 1
      ensures workQueue2 == old(workQueue2) +
              [Packet((c + mem)[at..at + P], Stamp(push.time, f.xdelta, TruncDiv(old(dataIndex), f.multiplier)),
                      old(packetCount) % 16)]
    {
      hide Stamp, TruncDiv, f.PacketBytes, f.PacketScalars;
      var ts, nextTimeStamp := CalcNextTimeStamp(push.time, xdelta, TruncDiv(dataIndex, mode + 1));
      var vrtPacket := CreatePacket(nextTimeStamp);
      var from := dataIndex * f.size;
      InPush(c, mem, at, P);
      vrtPacket := vrtPacket.(payload := mem[from..from + P]);
      dataIndex := dataIndex + f.PacketScalars();
      workQueue2 := workQueue2 + [vrtPacket];
    }

    /** One turn of the packet loop: the k-th packet of this push. */
    method PacketTurn(push: Push, ghost c: seq<Byte>, mem: seq<Byte>, f: Format, ghost first: nat, ghost k: nat)
      requires f.Valid() && f.xdelta == xdelta && f.samples == samplesPerPacket && f.multiplier == mode + 1
      requires |c| % f.size == 0 && |c| <= f.PacketBytes()
      requires k == 0 && |c| > 0 ==> f.PacketBytes() <= spareBuffer.Length
      requires Times(k + 1, f.PacketBytes()) <= |c + mem|
      requires dataIndex == Index(|c|, f, k) && packetCount == first + k
      requires leftOverDataSize == if k == 0 then |c| else 0
      requires k == 0 ==> spareBuffer[..|c|] == c
      modifies `leftOverDataSize, `dataIndex, `packetCount, `workQueue2, spareBuffer
      ensures dataIndex == Index(|c|, f, k + 1) && packetCount == first + k + 1 && leftOverDataSize == 0
      ensures workQueue2 == old(workQueue2) + [NthPacket(c + mem, |c|, push, f, first, k)]
    {
      TurnArithmetic(|c|, f, k);
      if leftOverDataSize > 0 {
        CarriedTurn(push, c, mem, f, f.PacketBytes());
      } else {
        PlainTurn(push, c, mem, f, f.PacketBytes(), Times(k, f.PacketBytes()));
      }
    }

    /** The packet loop: it runs while a packet, measured with the old multiplier m0, is there. */
    method PacketLoop(push: Push, ghost c: seq<Byte>, mem: seq<Byte>, test: nat, f: Format, bytes: nat)
      returns (dataSizeInBytes: int)
      requires f.Valid() && f.xdelta == xdelta && f.samples == samplesPerPacket && f.multiplier == mode + 1
      requires f.PacketBytes() >= 1 && |c| % f.size == 0 && |c| <= spareBuffer.Length
      requires |c| > 0 && Turns(bytes, test, f.PacketBytes()) > 0 ==> |c| <= f.PacketBytes() <= spareBuffer.Length
      requires Times(Turns(bytes, test, f.PacketBytes()), f.PacketBytes()) <= |c + mem|
      requires dataIndex == 0 && leftOverDataSize == |c| && spareBuffer[..|c|] == c
      modifies `leftOverDataSize, `dataIndex, `packetCount, `workQueue2, spareBuffer
      ensures var n := Turns(bytes, test, f.PacketBytes());
              && dataSizeInBytes == bytes - Times(n, f.PacketBytes())
              && dataIndex == Index(|c|, f, n)
              && packetCount == old(packetCount) + n
              && leftOverDataSize == (if n == 0 then |c| else 0)
              && (n == 0 ==> spareBuffer[..|c|] == c)
              && workQueue2 == old(workQueue2) + Packets(c + mem, |c|, push, f, old(packetCount), n)
    {
      hide NthPacket, f.PacketBytes;
      ghost var n := Turns(bytes, test, f.PacketBytes());
      ghost var k: nat, sent: seq<Packet> := 0, [];
      dataSizeInBytes := bytes;
      while dataSizeInBytes >= test
        invariant dataSizeInBytes == bytes - Times(k, f.PacketBytes())
        invariant n == k + Turns(dataSizeInBytes, test, f.PacketBytes())
        invariant dataIndex == Index(|c|, f, k) && packetCount == old(packetCount) + k
        invariant leftOverDataSize == if k == 0 then |c| else 0
        invariant k == 0 ==> spareBuffer[..|c|] == c
        invariant sent == Packets(c + mem, |c|, push, f, old(packetCount), k)
        invariant workQueue2 == old(workQueue2) + sent
        decreases n - k
      {
        TurnsStep(dataSizeInBytes, test, f.PacketBytes(), k);
        TimesMono(k + 1, n, f.PacketBytes());
        PacketTurn(push, c, mem, f, old(packetCount), k);
        dataSizeInBytes := dataSizeInBytes - f.PacketBytes();
        sent := sent + [workQueue2[|workQueue2| - 1]];
        k := k + 1;
      }
    }

    /** Save off the remainder that does not fill a packet; an empty push leaves the spare buffer alone. */
    method SaveRemainder(ghost c: seq<Byte>, mem: seq<Byte>, bytes: nat, f: Format, ghost n: nat, left: int)
      requires f.Valid() && |c| % f.size == 0 && dataIndex == Index(|c|, f, n)
      requires bytes > 0 ==> left <= spareBuffer.Length
      requires leftOverDataSize == (if n == 0 then |c| else 0) && |c| <= spareBuffer.Length
      requires n == 0 ==> spareBuffer[..|c|] == c
      requires |c| + left <= |c + mem| && Times(n, f.PacketBytes()) + left <= |c + mem|
      requires n > 0 ==> |c| <= f.PacketBytes()
      modifies `leftOverDataSize, spareBuffer
      ensures leftOverDataSize <= spareBuffer.Length
      ensures spareBuffer[..leftOverDataSize] == CarryOver(c, mem, bytes, f, n, left)
    {
      if left > 0 {
        if bytes > 0 {
          hide Index, f.PacketBytes;
          var from := dataIndex * f.size;
          ghost var at := RemainderAt(|c|, f, n, left, |c + mem|);
          InPush(c, mem, at, left);
          Memcpy(0, mem[from..from + left]);
          leftOverDataSize := left;
        }
      }
    }

    /** At end of stream the remainder goes out in a short packet and the stream is torn down. */
    method EndOfStream(push: Push, ghost carried: nat, f: Format, ghost n: nat, left: int)
      requires f.Valid() && f.xdelta == xdelta && f.multiplier == mode + 1 && push.eos
      requires dataIndex == Index(carried, f, n) && packetCount >= n
      requires left <= leftOverDataSize <= spareBuffer.Length
      modifies `leftOverDataSize, `dataIndex, `packetCount, `samplesPerPacket, `workQueue2
      ensures leftOverDataSize == 0 && dataIndex == 0 && packetCount == 0 && samplesPerPacket == 0
      ensures workQueue2 == old(workQueue2) +
              Flush(old(spareBuffer[..leftOverDataSize]), carried, push, f, old(packetCount) - n, n, left)
    {
      if left > 0 {
        var ts, nextTimeStamp := CalcNextTimeStamp(push.time, xdelta, TruncDiv(dataIndex, mode + 1));
        var vrtPacket := CreatePacket(nextTimeStamp);
        assert spareBuffer[..left] == Slice(spareBuffer[..leftOverDataSize], 0, left);
        vrtPacket := vrtPacket.(payload := spareBuffer[..left]);
        workQueue2 := workQueue2 + [vrtPacket];
      }
      TearDown();
    }

    /** Everything after the packet loop. */
    method Finish(push: Push, ghost c: seq<Byte>, mem: seq<Byte>, f: Format, ghost n: nat, left: int)
      requires f.Valid() && f.xdelta == xdelta && f.multiplier == mode + 1 && |c| % f.size == 0
      requires dataIndex == Index(|c|, f, n) && packetCount >= n
      requires |push.data| > 0 ==> left <= spareBuffer.Length
      requires leftOverDataSize == (if n == 0 then |c| else 0) && |c| <= spareBuffer.Length
      requires n == 0 ==> spareBuffer[..|c|] == c
      requires |c| + left <= |c + mem| && Times(n, f.PacketBytes()) + left <= |c + mem|
      requires n > 0 ==> |c| <= f.PacketBytes()
      requires |push.data| == 0 ==> if n > 0 then left <= 0 else left <= |c|
      modifies `leftOverDataSize, `dataIndex, `packetCount, `samplesPerPacket, `workQueue2, spareBuffer
      ensures dataIndex == 0 && leftOverDataSize <= spareBuffer.Length
      ensures var carry := CarryOver(c, mem, |push.data|, f, n, left);
              && workQueue2 == old(workQueue2) + Flush(carry, |c|, push, f, old(packetCount) - n, n, left)
              && spareBuffer[..leftOverDataSize] == if push.eos then [] else carry
      ensures packetCount == (if push.eos then 0 else old(packetCount))
      ensures samplesPerPacket == (if push.eos then 0 else old(samplesPerPacket))
    {
      SaveRemainder(c, mem, |push.data|, f, n, left);
      if push.eos {
        EndOfStream(push, |c|, f, n, left);
      }
      dataIndex := 0;
    }

    /** Everything after the merge. */
    method CutPush(push: Push, ghost c: seq<Byte>, beyond: seq<Byte>, m0: nat, f: Format, bytes: nat)
      requires f.xdelta == xdelta && f.samples == samplesPerPacket && f.multiplier == mode + 1
      requires Defined(|c|, push, beyond, m0, f) && bytes == Accepted(|c|, |push.data|, m0, f)
      requires Valid() && Carried() == c
      requires CopiesFit(|c|, |push.data|, m0, f, spareBuffer.Length)
      modifies `leftOverDataSize, `dataIndex, `packetCount, `samplesPerPacket, `workQueue2, spareBuffer
      ensures Valid()
      ensures var o := PushOutcome(c, push, beyond, m0, f, old(packetCount));
              && workQueue2 == old(workQueue2) + o.packets + o.flush
              && Carried() == (if push.eos then [] else o.carry)
              && packetCount == (if push.eos then 0 else old(packetCount) + |o.packets|)
              && samplesPerPacket == if push.eos then 0 else old(samplesPerPacket)
    {
      hide PushOutcome, Packets, CarryOver, Flush, Accepted, TestBytes, Completed, Left, f.PacketBytes;
      var mem := push.data + beyond;
      ghost var n, rest := OutcomeParts(c, push, mem, beyond, m0, f, packetCount);
      var left := PacketLoop(push, c, mem, TestBytes(f, m0), f, bytes);
      Finish(push, c, mem, f, n, left);
    }

    /** singleService from the size computation to the end, for a push that passed the stream check.
        The sizes are taken before the merge, the packets are cut after it. */
    method SingleService(push: Push, beyond: seq<Byte>, sampleSize: nat, merge: Merge) returns (served: bool)
      requires Valid() && sampleSize >= 1
      requires leftOverDataSize % sampleSize == 0 && |push.data| % sampleSize == 0
      requires merge.Merged? ==> merge.mode <= 1
      requires var f := FormatAfter(sampleSize, merge);
               f.samples >= 1 ==>
                 && f.PacketBytes() <= |beyond| && leftOverDataSize <= |beyond|
                 && CopiesFit(leftOverDataSize, |push.data|, mode + 1, f, spareBuffer.Length)
      modifies this, spareBuffer
      ensures Valid() && spareBuffer == old(spareBuffer) && leftOverDataSize % sampleSize == 0
      ensures var f := old(FormatAfter(sampleSize, merge));
              && mode + 1 == f.multiplier && xdelta == f.xdelta && served == (f.samples >= 1)
              && if f.samples >= 1 then
                   var o := PushOutcome(old(Carried()), push, beyond, old(mode) + 1, f, old(packetCount));
                   && workQueue2 == old(workQueue2) + o.packets + o.flush
                   && Carried() == (if push.eos then [] else o.carry)
                   && packetCount == (if push.eos then 0 else old(packetCount) + |o.packets|)
                   && samplesPerPacket == (if push.eos then 0 else f.samples)
                 else
                   && workQueue2 == old(workQueue2) && Carried() == old(Carried())
                   && packetCount == old(packetCount)
                   && samplesPerPacket == if merge.Merged? then merge.samplesPerPacket else old(samplesPerPacket)
    {
      hide PushOutcome, CopiesFit, Defined, Whole;
      ghost var c := Carried();
      var complexMultiplier := mode + 1;
      var leftOverSamples := (leftOverDataSize / sampleSize) / complexMultiplier;
      var numSamples := (|push.data| / sampleSize) / complexMultiplier + leftOverSamples;
      var dataSizeInBytes := (numSamples * complexMultiplier) * sampleSize;
      SizeComputation(leftOverDataSize, |push.data|, sampleSize, complexMultiplier);
      var f := FormatAfter(sampleSize, merge);

      if merge.Merged? {
        mode, xdelta, samplesPerPacket := merge.mode, merge.xdelta, merge.samplesPerPacket;
      }
      if samplesPerPacket < 1 {
        return false;
      }
      FitIsDefined(|c|, push, beyond, complexMultiplier, f, spareBuffer.Length);
      OutcomeAligned(c, push, beyond, complexMultiplier, f, packetCount);
      CutPush(push, c, beyond, complexMultiplier, f, dataSizeInBytes);
      return true;
    }

    /** The format in force once this push's merge, if any, is done. */
    function FormatAfter(sampleSize: nat, merge: Merge): Format
      reads this
    {
      match merge
      case NoMerge => Format(sampleSize, mode + 1, Positive(samplesPerPacket), xdelta)
      case Merged(m, x, n) => Format(sampleSize, m + 1, Positive(n), x)
    }
  }

  function Positive(n: int): nat { if n < 0 then 0 else n }

  lemma SizeComputation(carried: nat, bytes: nat, size: nat, m0: nat)
    requires size >= 1 && (m0 == 1 || m0 == 2) && carried % size == 0 && bytes % size == 0
    ensures Whole(carried, size, m0) + Whole(bytes, size, m0) ==
            (((bytes / size) / m0 + (carried / size) / m0) * m0) * size
  {
    WholeIsSampleCount(carried, size, m0);
    WholeIsSampleCount(bytes, size, m0);
    Factor((bytes / size) / m0, (carried / size) / m0, m0, size);
  }

  lemma Factor(a: int, b: int, m: int, size: int)
    ensures ((a + b) * m) * size == (a * m) * size + (b * m) * size
  {
    assert (a + b) * m == a * m + b * m;
  }
}
