/** Whole runs: all pushes of one stream, one after another, against the plain specification
    "put every push end to end and cut the result into packets, the last one short". */
module StreamRun {
  import opened Arithmetic
  import opened ByteStrings
  import opened Timestamps
  import opened Repacketiser

  /** Cutting bytes into chunks of P, the last one short. */
  function Cut(x: seq<Byte>, P: nat): seq<seq<Byte>>
    requires P >= 1
  {
    if x == [] then [] else if |x| <= P then [x] else [x[..P]] + Cut(x[P..], P)
  }

  function Payloads(packets: seq<Packet>): seq<seq<Byte>> {
    seq(|packets|, k requires 0 <= k < |packets| => packets[k].payload)
  }

  /** A push as the port delivers it: a whole number of scalars. */
  predicate LegalPush(push: Push, f: Format) { f.Valid() && |push.data| % f.size == 0 }

  /** The pushes of one stream: only the last one may end it. */
  ghost predicate Legal(pushes: seq<Push>, f: Format) {
    && f.Valid()
    && (forall j :: 0 <= j < |pushes| ==> LegalPush(pushes[j], f))
    && (forall j :: 0 <= j < |pushes| - 1 ==> !pushes[j].eos)
  }

  /** For every push, what memory holds behind its buffer. */
  ghost predicate MemoryFor(beyonds: seq<seq<Byte>>, pushes: seq<Push>, f: Format) {
    |beyonds| == |pushes| && forall j :: 0 <= j < |beyonds| ==> |beyonds[j]| >= f.PacketBytes()
  }

  /** The whole samples of a push. */
  function Samples(push: Push, f: Format): seq<Byte>
    requires f.Valid()
  {
    push.data[..Whole(|push.data|, f.size, f.multiplier)]
  }

  /** All whole samples of the stream, end to end. */
  function Input(pushes: seq<Push>, f: Format): seq<Byte>
    requires f.Valid()
  {
    if pushes == [] then [] else Input(pushes[..|pushes| - 1], f) + Samples(pushes[|pushes| - 1], f)
  }

  datatype Run = Run(packets: seq<Packet>, carry: seq<Byte>, flush: seq<Packet>)

  /** What the code makes of the pushes, each handled by PushOutcome with the bytes the one before carried on. */
  function RunOf(pushes: seq<Push>, beyonds: seq<seq<Byte>>, f: Format, first: nat): Run
    requires f.Valid() && |beyonds| == |pushes|
  {
    if pushes == [] then Run([], [], [])
    else
      var last := |pushes| - 1;
      var r := RunOf(pushes[..last], beyonds[..last], f, first);
      var o := PushOutcome(r.carry, pushes[last], beyonds[last], f.multiplier, f, first + |r.packets|);
      Run(r.packets + o.packets, o.carry, o.flush)
  }

  function Emitted(r: Run): seq<Packet> { r.packets + r.flush }

  /** A push may meet carried bytes only if it is empty or completes a packet with them. */
  predicate Ample(carried: nat, push: Push, f: Format)
    requires f.Valid()
  {
    carried == 0 || push.data == [] || carried + |Samples(push, f)| >= f.PacketBytes()
  }

  /** Only the lengths of the pushes decide it. */
  predicate AmpleRun(pushes: seq<Push>, f: Format)
    requires f.Valid()
  {
    pushes == [] ||
    var last := |pushes| - 1;
    f.PacketBytesAligned();
    AmpleRun(pushes[..last], f) && Ample(Rest(|Input(pushes[..last], f)|, f.PacketBytes()), pushes[last], f)
  }

  // ---- whole samples ----

  predicate WholeSamples(bytes: int, f: Format)
    requires f.Valid()
  {
    bytes % SampleBytes(f.size, f.multiplier) == 0
  }

  lemma WholeScalars(bytes: nat, f: Format)
    requires f.Valid() && WholeSamples(bytes, f)
    ensures bytes % f.size == 0 && bytes / f.size == (bytes / SampleBytes(f.size, f.multiplier)) * f.multiplier
  {
    SampleScalars(bytes, f.size, f.multiplier);
  }

  lemma WholeSum(a: int, b: int, f: Format)
    requires f.Valid() && WholeSamples(a, f) && WholeSamples(b, f)
    ensures WholeSamples(a + b, f) && WholeSamples(a - b, f)
  {
    ModDifference(a, b, SampleBytes(f.size, f.multiplier));
  }

  lemma WholeBytes(bytes: nat, f: Format)
    requires f.Valid()
    ensures WholeSamples(Whole(bytes, f.size, f.multiplier), f)
    ensures WholeSamples(bytes, f) ==> Whole(bytes, f.size, f.multiplier) == bytes
    ensures Whole(bytes, f.size, f.multiplier) <= bytes
    ensures bytes < Whole(bytes, f.size, f.multiplier) + SampleBytes(f.size, f.multiplier)
  {
    var b := SampleBytes(f.size, f.multiplier);
    var q := bytes / b;
    assert bytes == b * q + bytes % b;
    assert b * q == q * b;
    MulMod(q, b);
  }

  lemma WholePackets(n: nat, f: Format)
    requires f.Valid()
    ensures WholeSamples(Times(n, f.PacketBytes()), f)
  {
    var b := SampleBytes(f.size, f.multiplier);
    PacketSamples(f);
    TimesIsProduct(n, f.PacketBytes());
    MulAssoc(n, f.samples, b);
    MulMod(n * f.samples, b);
  }

  lemma PacketSamples(f: Format)
    requires f.Valid()
    ensures f.PacketBytes() == f.samples * SampleBytes(f.size, f.multiplier)
  {
    assert (2 * f.samples) * f.size == f.samples * (2 * f.size);
  }

  lemma MulAssoc(a: int, b: int, c: int)
    ensures a * (b * c) == (a * b) * c
  {
  }

  /** Carried bytes that are whole samples and not nothing are at least one sample. */
  lemma OneSample(bytes: nat, f: Format)
    requires f.Valid() && WholeSamples(bytes, f) && bytes > 0
    ensures bytes >= SampleBytes(f.size, f.multiplier)
  {
  }

  // ---- one push ----

  lemma {:induction false} PacketAt(view: seq<Byte>, carried: nat, push: Push, f: Format, first: nat, n: nat, k: nat)
    requires f.Valid() && k < n
    ensures Packets(view, carried, push, f, first, n)[k] == NthPacket(view, carried, push, f, first, k)
  {
    hide NthPacket;
    if k < n - 1 { PacketAt(view, carried, push, f, first, n - 1, k); }
  }

  /** Quotient and remainder of one push, on lengths. */
  lemma PushCount(carried: nat, push: Push, f: Format) returns (d: nat)
    requires LegalPush(push, f) && WholeSamples(carried, f)
    ensures d == carried + |Samples(push, f)| == Accepted(carried, |push.data|, f.multiplier, f)
    ensures f.PacketBytes() >= 1 && WholeSamples(d, f)
  {
    f.PacketBytesAligned();
    WholeBytes(carried, f);
    WholeBytes(|push.data|, f);
    d := carried + |Samples(push, f)|;
    WholeSum(carried, |Samples(push, f)|, f);
  }

  lemma WholeRemainder(d: nat, f: Format)
    requires f.Valid() && WholeSamples(d, f) && f.PacketBytes() >= 1
    ensures WholeSamples(Rest(d, f.PacketBytes()), f)
  {
    WholePackets(Packs(d, f.PacketBytes()), f);
    WholeSum(d, Times(Packs(d, f.PacketBytes()), f.PacketBytes()), f);
  }

  /** With the mode unchanged, a push turns carried and new bytes into their quotient by the packet
      size in packets and carries their remainder. */
  lemma PushLengths(c: seq<Byte>, push: Push, beyond: seq<Byte>, f: Format, first: nat)
    returns (o: Outcome, n: nat, d: nat)
    requires LegalPush(push, f) && |beyond| >= f.PacketBytes()
    requires WholeSamples(|c|, f) && |c| < f.PacketBytes()
    ensures f.PacketBytes() >= 1 && d == |c| + |Samples(push, f)|
    ensures n == Packs(d, f.PacketBytes()) && Times(n, f.PacketBytes()) + Rest(d, f.PacketBytes()) == d
    ensures Rest(d, f.PacketBytes()) < f.PacketBytes()
    ensures o == PushOutcome(c, push, beyond, f.multiplier, f, first)
    ensures o.packets == Packets(c + (push.data + beyond), |c|, push, f, first, n)
    ensures |o.carry| == Rest(d, f.PacketBytes()) && WholeSamples(|o.carry|, f)
    ensures o.carry == CarryOver(c, push.data + beyond, |push.data|, f, n, Rest(d, f.PacketBytes()))
    ensures o.flush == if push.eos && o.carry != [] then
              [Packet(o.carry, Stamp(push.time, f.xdelta, TruncDiv(Index(|c|, f, n), f.multiplier)), (first + n) % 16)]
             else []
  {
    hide PushOutcome, Packets, CarryOver, Whole, WholeSamples;
    var left: int;
    WholeScalars(|c|, f);
    var mem := push.data + beyond;
    n, left := OutcomeParts(c, push, mem, beyond, f.multiplier, f, first);
    d := PushCount(|c|, push, f);
    WholeRemainder(d, f);
    PacksRest(d, f.PacketBytes());
    o := PushOutcome(c, push, beyond, f.multiplier, f, first);
    CarryLength(c, mem, |push.data|, f, n, left);
    assert Slice(o.carry, 0, |o.carry|) == o.carry;
  }

  /** One push, in plain arithmetic: the quotient of all samples' bytes is completed, the remainder carried. */
  lemma PushQuotient(c: seq<Byte>, push: Push, beyond: seq<Byte>, f: Format, first: nat)
    requires LegalPush(push, f) && |beyond| >= f.PacketBytes()
    requires WholeSamples(|c|, f) && |c| < f.PacketBytes()
    ensures var o, d := PushOutcome(c, push, beyond, f.multiplier, f, first), |c| + |Samples(push, f)|;
            |o.packets| == d / f.PacketBytes() && |o.carry| == d % f.PacketBytes()
  {
    hide PushOutcome;
    var o, n, d := PushLengths(c, push, beyond, f, first);
    TurnsIsQuotient(d, f.PacketBytes());
  }

  lemma CarryLength(c: seq<Byte>, mem: seq<Byte>, bytes: nat, f: Format, n: nat, left: nat)
    requires |c| + left <= |c + mem| && Times(n, f.PacketBytes()) + left <= |c + mem|
    requires bytes == 0 ==> if n > 0 then left == 0 else left == |c|
    requires n == 0 && left == 0 ==> c == []
    ensures |CarryOver(c, mem, bytes, f, n, left)| == left
  {
  }

  /** The parts are packet-sized and, with the carry after them, are x: nothing lost, doubled or moved. */
  ghost predicate CutFrom(parts: seq<seq<Byte>>, carry: seq<Byte>, x: seq<Byte>, P: nat) {
    Flat(parts) + carry == x && forall k :: 0 <= k < |parts| ==> |parts[k]| == P
  }

  lemma PayloadsAppend(a: seq<Packet>, b: seq<Packet>)
    ensures Payloads(a + b) == Payloads(a) + Payloads(b)
  {
  }

  /** Cutting on: parts cut from x, then parts cut from the carry and s, are parts cut from x + s. */
  lemma CutExtend(before: seq<seq<Byte>>, c: seq<Byte>, x: seq<Byte>, parts: seq<seq<Byte>>, carry: seq<Byte>,
                  s: seq<Byte>, P: nat)
    requires CutFrom(before, c, x, P) && CutFrom(parts, carry, c + s, P)
    ensures CutFrom(before + parts, carry, x + s, P)
  {
    FlatAppend(before, parts);
    hide Flat;
    calc {
      Flat(before + parts) + carry;
      Flat(before) + (Flat(parts) + carry);
      Flat(before) + (c + s);
      x + s;
    }
  }

  lemma PacketsSnoc(view: seq<Byte>, carried: nat, push: Push, f: Format, first: nat, n: nat)
    requires f.Valid()
    ensures Payloads(Packets(view, carried, push, f, first, n + 1)) ==
            Payloads(Packets(view, carried, push, f, first, n)) +
            [Slice(view, Times(n, f.PacketBytes()), Times(n + 1, f.PacketBytes()))]
  {
  }

  lemma {:induction false} PacketsCut(view: seq<Byte>, carried: nat, push: Push, f: Format, first: nat, n: nat)
    requires f.Valid() && Times(n, f.PacketBytes()) <= |view|
    ensures CutFrom(Payloads(Packets(view, carried, push, f, first, n)), [], view[..Times(n, f.PacketBytes())],
                    f.PacketBytes())
  {
    if n > 0 {
      hide Packets, NthPacket, CutFrom;
      PacketsCut(view, carried, push, f, first, n - 1);
      PacketsSnoc(view, carried, push, f, first, n - 1);
      ExtendCut(Payloads(Packets(view, carried, push, f, first, n - 1)), view, Times(n - 1, f.PacketBytes()),
                f.PacketBytes());
    }
  }

  lemma ExtendCut(parts: seq<seq<Byte>>, view: seq<Byte>, at: nat, P: nat)
    requires at + P <= |view| && CutFrom(parts, [], view[..at], P)
    ensures CutFrom(parts + [Slice(view, at, at + P)], [], view[..at + P], P)
  {
    FlatSnoc(parts, view[at..at + P]);
    assert view[..at + P] == view[..at] + view[at..at + P];
  }

  lemma CarryCut(c: seq<Byte>, mem: seq<Byte>, bytes: nat, f: Format, n: nat, d: nat)
    requires |c| <= d <= |c + mem| && Times(n, f.PacketBytes()) <= d && (bytes == 0 ==> d == |c|)
    requires n == 0 ==> c == [] || bytes == 0
    requires n > 0 ==> d == Times(n, f.PacketBytes()) || bytes > 0
    ensures CarryOver(c, mem, bytes, f, n, d - Times(n, f.PacketBytes())) == (c + mem)[Times(n, f.PacketBytes())..d]
  {
  }

  lemma CutCarry(parts: seq<seq<Byte>>, carry: seq<Byte>, view: seq<Byte>, at: nat, d: nat, P: nat)
    requires at <= d <= |view| && CutFrom(parts, [], view[..at], P) && carry == view[at..d]
    ensures CutFrom(parts, carry, view[..d], P)
  {
    assert view[..d] == view[..at] + view[at..d];
    assert Flat(parts) + [] == Flat(parts);
  }

  /** A push that meets the condition cuts the carried and the new samples as one piece. */
  lemma PushContents(c: seq<Byte>, push: Push, beyond: seq<Byte>, f: Format, first: nat)
    requires LegalPush(push, f) && |beyond| >= f.PacketBytes()
    requires WholeSamples(|c|, f) && |c| < f.PacketBytes() && Ample(|c|, push, f)
    ensures var o := PushOutcome(c, push, beyond, f.multiplier, f, first);
            CutFrom(Payloads(o.packets), o.carry, c + Samples(push, f), f.PacketBytes())
  {
    hide PushOutcome, CarryOver, Packets, CutFrom, Flush;
    var o, n, d := PushLengths(c, push, beyond, f, first);
    var view := c + (push.data + beyond);
    if n > 0 { TimesMono(1, n, f.PacketBytes()); }
    PacketsCut(view, |c|, push, f, first, n);
    CarryCut(c, push.data + beyond, |push.data|, f, n, d);
    CutCarry(Payloads(o.packets), o.carry, view, Times(n, f.PacketBytes()), d, f.PacketBytes());
    assert c + Samples(push, f) == view[..d];
  }

  /** Whatever the pushes, the number of packets is the quotient and the carried bytes the remainder
      of the whole input: only contents can go wrong. */
  lemma {:induction false} RunLengths(pushes: seq<Push>, beyonds: seq<seq<Byte>>, f: Format, first: nat)
    returns (r: Run)
    requires Legal(pushes, f) && MemoryFor(beyonds, pushes, f)
    ensures r == RunOf(pushes, beyonds, f, first) && f.PacketBytes() >= 1
    ensures |r.packets| == Packs(|Input(pushes, f)|, f.PacketBytes())
    ensures |r.carry| == Rest(|Input(pushes, f)|, f.PacketBytes())
    ensures Times(|r.packets|, f.PacketBytes()) + |r.carry| == |Input(pushes, f)|
    ensures WholeSamples(|r.carry|, f) && |r.carry| < f.PacketBytes()
    ensures pushes == [] || !pushes[|pushes| - 1].eos || r.carry == [] ==> r.flush == []
    ensures pushes != [] && pushes[|pushes| - 1].eos && r.carry != [] ==>
              |r.flush| == 1 && r.flush[0].payload == r.carry && r.flush[0].count == (first + |r.packets|) % 16
  {
    hide PushOutcome, WholeSamples, Packets, CarryOver, Stamp, Index, Packs, Rest;
    f.PacketBytesAligned();
    r := RunOf(pushes, beyonds, f, first);
    if pushes == [] {
      PacksUnique(0, 0, 0, f.PacketBytes());
      WholePackets(0, f);
    } else {
      var last := |pushes| - 1;
      var before := RunLengths(pushes[..last], beyonds[..last], f, first);
      var o, n, d := PushLengths(before.carry, pushes[last], beyonds[last], f, first + |before.packets|);
      TimesSum(|before.packets|, n, f.PacketBytes());
      PacksUnique(|Input(pushes, f)|, |before.packets| + n, |o.carry|, f.PacketBytes());
    }
  }

  /** The last step of a run, with all its measures. */
  lemma LastStep(pushes: seq<Push>, beyonds: seq<seq<Byte>>, f: Format, first: nat)
    returns (before: Run, o: Outcome, n: nat, d: nat)
    requires Legal(pushes, f) && MemoryFor(beyonds, pushes, f) && pushes != []
    ensures var last := |pushes| - 1; before == RunOf(pushes[..last], beyonds[..last], f, first)
    ensures RunOf(pushes, beyonds, f, first) == Run(before.packets + o.packets, o.carry, o.flush)
    ensures WholeSamples(|before.carry|, f) && |before.carry| < f.PacketBytes() && |o.packets| == n
    ensures |before.carry| == Rest(|Input(pushes[..|pushes| - 1], f)|, f.PacketBytes())
    ensures |Input(pushes[..|pushes| - 1], f)| == Times(|before.packets|, f.PacketBytes()) + |before.carry|
    ensures Times(|before.packets| + n, f.PacketBytes()) <= |Input(pushes, f)|
    ensures d == |before.carry| + |Samples(pushes[|pushes| - 1], f)| && n == Packs(d, f.PacketBytes())
    ensures |o.carry| == Rest(d, f.PacketBytes())
    ensures o.packets == Packets(before.carry + (pushes[|pushes| - 1].data + beyonds[|pushes| - 1]), |before.carry|,
                                 pushes[|pushes| - 1], f, first + |before.packets|, n)
    ensures o.flush == [] ||
            (o.flush == [Packet(o.carry, Stamp(pushes[|pushes| - 1].time, f.xdelta,
                                               TruncDiv(Index(|before.carry|, f, n), f.multiplier)),
                                (first + |before.packets| + n) % 16)])
  {
    hide PushOutcome, WholeSamples, Packets, CarryOver, Stamp, Index;
    var last := |pushes| - 1;
    before := RunLengths(pushes[..last], beyonds[..last], f, first);
    o, n, d := PushLengths(before.carry, pushes[last], beyonds[last], f, first + |before.packets|);
    TimesSum(|before.packets|, n, f.PacketBytes());
  }

  /** Refinement: the packets of the run, in order, and then the carried bytes are the input. */
  lemma {:induction false} RunContents(pushes: seq<Push>, beyonds: seq<seq<Byte>>, f: Format, first: nat)
    requires Legal(pushes, f) && MemoryFor(beyonds, pushes, f) && AmpleRun(pushes, f)
    ensures CutFrom(Payloads(RunOf(pushes, beyonds, f, first).packets), RunOf(pushes, beyonds, f, first).carry,
                    Input(pushes, f), f.PacketBytes())
  {
    hide PushOutcome;
    if pushes != [] {
      var last := |pushes| - 1;
      var before := RunLengths(pushes[..last], beyonds[..last], f, first);
      RunContents(pushes[..last], beyonds[..last], f, first);
      PushContents(before.carry, pushes[last], beyonds[last], f, first + |before.packets|);
      var o := PushOutcome(before.carry, pushes[last], beyonds[last], f.multiplier, f, first + |before.packets|);
      PayloadsAppend(before.packets, o.packets);
      CutExtend(Payloads(before.packets), before.carry, Input(pushes[..last], f), Payloads(o.packets), o.carry,
                Samples(pushes[last], f), f.PacketBytes());
    }
  }

  lemma {:induction false} FlatHead(parts: seq<seq<Byte>>)
    requires parts != []
    ensures Flat(parts) == parts[0] + Flat(parts[1..])
  {
    FlatOne(parts[0]);
    assert parts == [parts[0]] + parts[1..];
    FlatAppend([parts[0]], parts[1..]);
  }

  /** Parts cut from x, and one more for the carry if there is any, are the reference cut of x. */
  lemma {:induction false} CutFromIsCut(parts: seq<seq<Byte>>, carry: seq<Byte>, x: seq<Byte>, P: nat)
    requires |carry| < P && CutFrom(parts, carry, x, P)
    ensures parts + (if carry == [] then [] else [carry]) == Cut(x, P)
    decreases |parts|
  {
    if parts != [] {
      FlatHead(parts);
      assert x == parts[0] + (Flat(parts[1..]) + carry);
      assert x[..P] == parts[0] && x[P..] == Flat(parts[1..]) + carry;
      CutFromIsCut(parts[1..], carry, x[P..], P);
      assert parts == [parts[0]] + parts[1..];
      if |x| == P {
        assert x == x[..P] && x[P..] == [];
      }
    } else {
      assert x == carry;
    }
  }

  /** At end of stream the emitted payloads are the input cut into packets, the last one short. */
  lemma RunRefinesCut(pushes: seq<Push>, beyonds: seq<seq<Byte>>, f: Format, first: nat)
    requires Legal(pushes, f) && MemoryFor(beyonds, pushes, f) && AmpleRun(pushes, f)
    requires pushes != [] && pushes[|pushes| - 1].eos
    ensures f.PacketBytes() >= 1
    ensures Payloads(Emitted(RunOf(pushes, beyonds, f, first))) == Cut(Input(pushes, f), f.PacketBytes())
  {
    var r := RunLengths(pushes, beyonds, f, first);
    RunContents(pushes, beyonds, f, first);
    CutFromIsCut(Payloads(r.packets), r.carry, Input(pushes, f), f.PacketBytes());
    PayloadsAppend(r.packets, r.flush);
  }

  lemma CutUnique(parts: seq<seq<Byte>>, carry: seq<Byte>, parts': seq<seq<Byte>>, carry': seq<Byte>, x: seq<Byte>,
                  P: nat)
    requires |carry| < P && CutFrom(parts, carry, x, P)
    requires |carry'| == |carry| && |parts| == |parts'| && CutFrom(parts', carry', x, P)
    ensures parts == parts' && carry == carry'
  {
    CutFromIsCut(parts, carry, x, P);
    CutFromIsCut(parts', carry', x, P);
    assert parts == Cut(x, P)[..|parts|] == parts';
    assert carry == x[|x| - |carry|..] == carry';
  }

  /** How the input was split into pushes cannot be told from the packets. */
  lemma SplitDoesNotMatter(pushes: seq<Push>, others: seq<Push>, beyonds: seq<seq<Byte>>, beyonds': seq<seq<Byte>>,
                           f: Format, first: nat)
    requires Legal(pushes, f) && MemoryFor(beyonds, pushes, f) && AmpleRun(pushes, f)
    requires Legal(others, f) && MemoryFor(beyonds', others, f) && AmpleRun(others, f)
    requires Input(pushes, f) == Input(others, f)
    ensures Payloads(RunOf(pushes, beyonds, f, first).packets) == Payloads(RunOf(others, beyonds', f, first).packets)
    ensures RunOf(pushes, beyonds, f, first).carry == RunOf(others, beyonds', f, first).carry
  {
    var r := RunLengths(pushes, beyonds, f, first);
    var r' := RunLengths(others, beyonds', f, first);
    RunContents(pushes, beyonds, f, first);
    RunContents(others, beyonds', f, first);
    CutUnique(Payloads(r.packets), r.carry, Payloads(r'.packets), r'.carry, Input(pushes, f), f.PacketBytes());
  }

  // ---- exactly when a run meets the specification ----

  function Delivered(r: Run): seq<Byte> { Flat(Payloads(r.packets)) + r.carry }

  /** A push that is too short for what it meets: only its own bytes and what follows them in memory are carried on. */
  lemma ShortPush(c: seq<Byte>, push: Push, beyond: seq<Byte>, f: Format, first: nat) returns (o: Outcome, d: nat)
    requires LegalPush(push, f) && |beyond| >= f.PacketBytes()
    requires WholeSamples(|c|, f) && |c| < f.PacketBytes() && !Ample(|c|, push, f)
    ensures o == PushOutcome(c, push, beyond, f.multiplier, f, first) && o.packets == []
    ensures |push.data| < d <= |push.data| + |beyond| && o.carry == (push.data + beyond)[..d]
  {
    var n: nat;
    o, n, d := PushLengths(c, push, beyond, f, first);
    hide PushOutcome, Stamp, Index, NthPacket, Format.PacketBytes;
    assert n == 0 && d > 0;
    OneSample(|c|, f);
    WholeBytes(|push.data|, f);
    hide WholeSamples, Whole;
    assert (c + (push.data + beyond))[|c|..|c| + d] == (push.data + beyond)[..d];
  }

  /** Some content of memory behind a push's buffer is not the byte that belongs at the end. */
  lemma BadPush(c: seq<Byte>, push: Push, f: Format, first: nat, target: Byte) returns (beyond: seq<Byte>)
    requires LegalPush(push, f) && WholeSamples(|c|, f) && |c| < f.PacketBytes() && !Ample(|c|, push, f)
    ensures |beyond| >= f.PacketBytes()
    ensures var o := PushOutcome(c, push, beyond, f.multiplier, f, first);
            o.packets == [] && o.carry != [] && o.carry[|o.carry| - 1] != target
  {
    hide PushOutcome, Format.PacketBytes, WholeSamples, Ample;
    beyond := seq(f.PacketBytes(), _ => if target == 0 then 1 else 0);
    var o, d := ShortPush(c, push, beyond, f, first);
    assert o.carry[d - 1] == beyond[d - 1 - |push.data|];
  }

  lemma DeliveredStep(r: Run, o: Outcome, s: seq<Byte>)
    requires Flat(Payloads(o.packets)) + o.carry == r.carry + s
    ensures Delivered(Run(r.packets + o.packets, o.carry, o.flush)) == Delivered(r) + s
  {
    PayloadsAppend(r.packets, o.packets);
    FlatAppend(Payloads(r.packets), Payloads(o.packets));
    hide Flat, Payloads;
    calc {
      (Flat(Payloads(r.packets)) + Flat(Payloads(o.packets))) + o.carry;
      Flat(Payloads(r.packets)) + (Flat(Payloads(o.packets)) + o.carry);
      Flat(Payloads(r.packets)) + (r.carry + s);
      Delivered(r) + s;
    }
  }

  function Extend(r: Run, push: Push, beyond: seq<Byte>, f: Format, first: nat): Run
    requires f.Valid()
  {
    var o := PushOutcome(r.carry, push, beyond, f.multiplier, f, first + |r.packets|);
    Run(r.packets + o.packets, o.carry, o.flush)
  }

  lemma RunSnoc(pushes: seq<Push>, beyonds: seq<seq<Byte>>, beyond: seq<Byte>, f: Format, first: nat)
    requires f.Valid() && pushes != [] && |beyonds| == |pushes| - 1
    ensures RunOf(pushes, beyonds + [beyond], f, first) ==
            Extend(RunOf(pushes[..|pushes| - 1], beyonds, f, first), pushes[|pushes| - 1], beyond, f, first)
  {
    hide PushOutcome;
    assert (beyonds + [beyond])[..|pushes| - 1] == beyonds;
  }

  /** Some content of memory makes the last byte wrong. */
  lemma BadEnd(r: Run, push: Push, f: Format, first: nat, x: seq<Byte>) returns (beyond: seq<Byte>)
    requires LegalPush(push, f) && WholeSamples(|r.carry|, f) && |r.carry| < f.PacketBytes()
    requires !Ample(|r.carry|, push, f) && x != []
    ensures |beyond| >= f.PacketBytes() && Delivered(Extend(r, push, beyond, f, first)) != x
  {
    beyond := BadPush(r.carry, push, f, first + |r.packets|, x[|x| - 1]);
    hide PushOutcome;
    var o := PushOutcome(r.carry, push, beyond, f.multiplier, f, first + |r.packets|);
    var y := Delivered(Extend(r, push, beyond, f, first));
    assert y[|y| - 1] == o.carry[|o.carry| - 1];
  }

  lemma WrongStaysWrong(r: Run, push: Push, beyond: seq<Byte>, f: Format, first: nat, x: seq<Byte>)
    requires LegalPush(push, f) && |beyond| >= f.PacketBytes()
    requires WholeSamples(|r.carry|, f) && |r.carry| < f.PacketBytes() && Ample(|r.carry|, push, f)
    requires Delivered(r) != x
    ensures Delivered(Extend(r, push, beyond, f, first)) != x + Samples(push, f)
  {
    hide PushOutcome, WholeSamples, Ample;
    PushContents(r.carry, push, beyond, f, first + |r.packets|);
    var o := PushOutcome(r.carry, push, beyond, f.multiplier, f, first + |r.packets|);
    DeliveredStep(r, o, Samples(push, f));
    SamePrefix(Delivered(r), x, Samples(push, f));
  }

  lemma SamePrefix(a: seq<Byte>, b: seq<Byte>, s: seq<Byte>)
    ensures a + s == b + s ==> a == b
  {
    assert (a + s)[..|a|] == a && (b + s)[..|b|] == b;
  }

  /** If some push is too short for the bytes carried into it, there is a content of memory for which
      the stream's bytes come out wrong. */
  lemma {:induction false} BadRun(pushes: seq<Push>, f: Format, first: nat) returns (beyonds: seq<seq<Byte>>)
    requires Legal(pushes, f) && !AmpleRun(pushes, f)
    ensures MemoryFor(beyonds, pushes, f)
    ensures Delivered(RunOf(pushes, beyonds, f, first)) != Input(pushes, f)
  {
    hide PushOutcome, WholeSamples, Ample, Samples, Extend;
    f.PacketBytesAligned();
    var last := |pushes| - 1;
    var zeros: seq<Byte> := seq(f.PacketBytes(), _ => 0);
    var before := Input(pushes[..last], f);
    if Ample(Rest(|before|, f.PacketBytes()), pushes[last], f) {
      beyonds := BadRun(pushes[..last], f, first);
      var r := RunLengths(pushes[..last], beyonds, f, first);
      WrongStaysWrong(r, pushes[last], zeros, f, first, before);
      RunSnoc(pushes, beyonds, zeros, f, first);
      beyonds := beyonds + [zeros];
    } else {
      beyonds := seq(last, _ => zeros);
      var r := RunLengths(pushes[..last], beyonds, f, first);
      NotAmple(|r.carry|, pushes[last], f);
      var beyond := BadEnd(r, pushes[last], f, first, Input(pushes, f));
      RunSnoc(pushes, beyonds, beyond, f, first);
      beyonds := beyonds + [beyond];
    }
  }

  lemma NotAmple(carried: nat, push: Push, f: Format)
    requires f.Valid() && !Ample(carried, push, f)
    ensures carried > 0 && push.data != []
  {
  }

  lemma {:induction false} FlatCut(x: seq<Byte>, P: nat)
    requires P >= 1
    ensures Flat(Cut(x, P)) == x
    decreases |x|
  {
    if |x| > P {
      FlatCut(x[P..], P);
      var parts := Cut(x[P..], P);
      assert Cut(x, P) == [x[..P]] + parts;
      hide Cut, Flat;
      FlatHead([x[..P]] + parts);
      assert ([x[..P]] + parts)[1..] == parts;
      assert x == x[..P] + x[P..];
    } else if x != [] {
      FlatOne(x);
    }
  }

  lemma FlatOne(x: seq<Byte>)
    ensures Flat([x]) == x
  {
    assert [x] == [] + [x];
    FlatSnoc([], x);
  }

  /** The stream comes out as the input cut into packets whatever memory holds behind the pushes, if
      and only if every push that meets carried bytes is empty or completes a packet with them. */
  lemma RefinesIff(pushes: seq<Push>, f: Format, first: nat)
    requires Legal(pushes, f) && pushes != [] && pushes[|pushes| - 1].eos
    ensures f.PacketBytes() >= 1
    ensures (forall beyonds | MemoryFor(beyonds, pushes, f) ::
               Payloads(Emitted(RunOf(pushes, beyonds, f, first))) == Cut(Input(pushes, f), f.PacketBytes()))
            <==> AmpleRun(pushes, f)
  {
    hide RunOf, AmpleRun, Input;
    f.PacketBytesAligned();
    if AmpleRun(pushes, f) {
      forall beyonds | MemoryFor(beyonds, pushes, f)
        ensures Payloads(Emitted(RunOf(pushes, beyonds, f, first))) == Cut(Input(pushes, f), f.PacketBytes())
      {
        RunRefinesCut(pushes, beyonds, f, first);
      }
    } else {
      var beyonds := BadRun(pushes, f, first);
      var r := RunLengths(pushes, beyonds, f, first);
      PayloadsAppend(r.packets, r.flush);
      FlatAppend(Payloads(r.packets), Payloads(r.flush));
      if r.carry != [] {
        assert Payloads(r.flush) == [r.carry];
        FlatOne(r.carry);
      }
      assert Flat(Payloads(Emitted(r))) == Delivered(r);
      FlatCut(Input(pushes, f), f.PacketBytes());
    }
  }

  // ---- against the bytes as they were pushed ----

  /** All bytes of the stream as pushed, end to end. */
  function Raw(pushes: seq<Push>): seq<Byte> {
    if pushes == [] then [] else Raw(pushes[..|pushes| - 1]) + pushes[|pushes| - 1].data
  }

  predicate WholePush(push: Push, f: Format)
    requires f.Valid()
  {
    WholeSamples(|push.data|, f)
  }

  /** No push ends in half a complex sample; always so for scalar data. */
  ghost predicate AllWhole(pushes: seq<Push>, f: Format)
    requires f.Valid()
  {
    forall j :: 0 <= j < |pushes| ==> WholePush(pushes[j], f)
  }

  lemma PushIsWhole(push: Push, f: Format)
    requires f.Valid()
    ensures |Samples(push, f)| <= |push.data|
    ensures |Samples(push, f)| == |push.data| <==> WholePush(push, f)
    ensures WholePush(push, f) ==> Samples(push, f) == push.data
  {
    WholeBytes(|push.data|, f);
    if |Samples(push, f)| == |push.data| { assert Samples(push, f) == push.data; }
  }

  /** The whole samples are all bytes if and only if each push is whole. */
  lemma {:induction false} InputIsRaw(pushes: seq<Push>, f: Format)
    requires f.Valid()
    ensures |Input(pushes, f)| <= |Raw(pushes)|
    ensures |Input(pushes, f)| == |Raw(pushes)| <==> AllWhole(pushes, f)
    ensures AllWhole(pushes, f) ==> Input(pushes, f) == Raw(pushes)
  {
    if pushes != [] {
      hide WholePush, Samples;
      var last := |pushes| - 1;
      InputIsRaw(pushes[..last], f);
      PushIsWhole(pushes[last], f);
      assert AllWhole(pushes, f) <==> AllWhole(pushes[..last], f) && WholePush(pushes[last], f) by {
        forall j | 0 <= j < last ensures pushes[..last][j] == pushes[j] {}
      }
    }
  }

  /** The length of the bytes is seen in their cut: all pieces but the last are full. */
  lemma {:induction false} CutShape(x: seq<Byte>, P: nat)
    requires P >= 1 && x != []
    ensures var parts := Cut(x, P);
            parts != [] && |x| == Times(|parts| - 1, P) + |parts[|parts| - 1]| && |parts[|parts| - 1]| <= P
    decreases |x|
  {
    if |x| > P {
      CutShape(x[P..], P);
      var parts := Cut(x[P..], P);
      assert Cut(x, P) == [x[..P]] + parts;
    }
  }

  /** Payloads that are the cut of some bytes tell their length. */
  lemma CutTellsLength(r: Run, x: seq<Byte>, length: nat, P: nat)
    requires P >= 1 && Payloads(Emitted(r)) == Cut(x, P) && length <= |x|
    requires length == Times(|r.packets|, P) + |r.carry|
    requires r.flush == [] ==> r.carry == []
    requires r.flush != [] ==> |r.flush| == 1 && r.flush[0].payload == r.carry
    ensures |x| == length
  {
    assert |Emitted(r)| == |Cut(x, P)|;
    if x != [] {
      CutShape(x, P);
      if r.flush != [] {
        assert Payloads(Emitted(r))[|r.packets|] == r.carry;
      }
    }
  }

  /** The stream comes out as all bytes pushed, cut into packets, whatever memory holds behind the pushes, if
      and only if each push is ample and none ends in half a complex sample. */
  lemma RefinesRawIff(pushes: seq<Push>, f: Format, first: nat)
    requires Legal(pushes, f) && pushes != [] && pushes[|pushes| - 1].eos
    ensures f.PacketBytes() >= 1
    ensures (forall beyonds | MemoryFor(beyonds, pushes, f) ::
               Payloads(Emitted(RunOf(pushes, beyonds, f, first))) == Cut(Raw(pushes), f.PacketBytes()))
            <==> AmpleRun(pushes, f) && AllWhole(pushes, f)
  {
    hide RunOf, AmpleRun, Input, Cut, Raw, AllWhole, Payloads;
    f.PacketBytesAligned();
    RefinesIff(pushes, f, first);
    InputIsRaw(pushes, f);
    if forall beyonds | MemoryFor(beyonds, pushes, f) ::
         Payloads(Emitted(RunOf(pushes, beyonds, f, first))) == Cut(Raw(pushes), f.PacketBytes()) {
      var zeros: seq<Byte> := seq(f.PacketBytes(), _ => 0);
      var beyonds := seq(|pushes|, _ => zeros);
      var r := RunLengths(pushes, beyonds, f, first);
      CutTellsLength(r, Raw(pushes), |Input(pushes, f)|, f.PacketBytes());
    }
  }
}
