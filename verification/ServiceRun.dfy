/** The service thread over one stream: `singleService` called for every push until the end of stream. */
module ServiceRun {
  import opened Arithmetic
  import opened ByteStrings
  import opened Repacketiser
  import opened StreamRun
  import opened ModeSwitch
  import opened SpareBuffer
  import PayloadSizing
  import PayloadLife

  /** A merge that leaves the format as it is. */
  predicate Keeps(merge: Merge, f: Format) {
    merge.NoMerge? || Sets(merge, f)
  }

  predicate Sets(merge: Merge, f: Format) {
    merge.Merged? && merge.mode + 1 == f.multiplier && merge.xdelta == f.xdelta && merge.samplesPerPacket == f.samples
  }

  /** The sink holds what the run so far has carried, in this format. */
  ghost predicate Holds(sink: SinkVITA49, r: Run, f: Format, first: nat)
    reads sink, sink.spareBuffer
  {
    && sink.Valid() && sink.Carried() == r.carry && sink.packetCount == first + |r.packets|
    && sink.mode + 1 == f.multiplier && sink.xdelta == f.xdelta && sink.samplesPerPacket == f.samples
  }

  /** The first push of a format, with the merge that sets it, and nothing carried. The mode may change in it if
      that does no harm. */
  ghost predicate Begins(sink: SinkVITA49, push: Push, merge: Merge, f: Format, first: nat)
    reads sink, sink.spareBuffer
  {
    && f.Valid() && sink.Valid() && sink.Carried() == [] && sink.packetCount == first
    && Sets(merge, f)
    && (sink.mode + 1 == f.multiplier || Harmless(0, |push.data|, push.eos, f))
  }

  /** Everything is reset, as after the end of a stream. */
  ghost predicate Cleared(sink: SinkVITA49)
    reads sink, sink.spareBuffer
  {
    sink.Valid() && sink.Carried() == [] && sink.packetCount == 0 && sink.samplesPerPacket == 0
  }

  /** One call, as a step of the run r, with the outcome o. */
  method ServeOne(sink: SinkVITA49, ghost r: Run, push: Push, beyond: seq<Byte>, merge: Merge, f: Format,
                  ghost first: nat, ghost o: Outcome)
    requires LegalPush(push, f) && |beyond| >= f.PacketBytes() && f.PacketBytes() <= sink.spareBuffer.Length
    requires || (Holds(sink, r, f, first) && Keeps(merge, f))
             || (r == Run([], [], []) && Begins(sink, push, merge, f, first))
    requires WholeSamples(|r.carry|, f) && |r.carry| < f.PacketBytes()
    requires o == PushOutcome(r.carry, push, beyond, f.multiplier, f, first + |r.packets|)
    modifies sink, sink.spareBuffer
    ensures sink.spareBuffer == old(sink.spareBuffer)
    ensures sink.workQueue2 == old(sink.workQueue2) + o.packets + o.flush
    ensures if push.eos then Cleared(sink) else Holds(sink, Run(r.packets + o.packets, o.carry, o.flush), f, first)
  {
    hide PushOutcome, WholeSamples, Format.PacketBytes, Harmless, CopiesFit, Accepted, TestBytes;
    WholeScalars(|r.carry|, f);
    LeavesLess(|r.carry|, |push.data|, f, sink.spareBuffer.Length);
    if sink.mode + 1 != f.multiplier {
      NothingCarried(f);
      ModeSwitchIff([], push, beyond, f, first);
      HarmlessFitsIff(0, |push.data|, push.eos, f, sink.spareBuffer.Length);
    }
    var served := sink.SingleService(push, beyond, f.size, merge);
  }

  lemma NothingCarried(f: Format)
    requires f.Valid()
    ensures 0 % f.size == 0
  {
  }

  // ---- pushes of one format ----

  /** Pushes that follow each other in one format: what memory holds behind each, the merge each one causes, the
      format the first merge sets and the others keep, and how many packets of the stream went before. */
  datatype Piece = Piece(pushes: seq<Push>, beyonds: seq<seq<Byte>>, merges: seq<Merge>, f: Format, first: nat) {
    predicate Shaped() { f.Valid() && |beyonds| == |pushes| && |merges| == |pushes| }

    ghost predicate Valid() {
      && Shaped() && Legal(pushes, f) && MemoryFor(beyonds, pushes, f)
      && (forall j :: 0 < j < |merges| ==> Keeps(merges[j], f))
    }

    ghost function Before(i: nat): Run {
      if Shaped() && i <= |pushes| then RunOf(pushes[..i], beyonds[..i], f, first) else Run([], [], [])
    }

    ghost function All(): Run {
      if Shaped() then RunOf(pushes, beyonds, f, first) else Run([], [], [])
    }

    /** All bytes pushed, cut into packets. */
    ghost function CutUp(): seq<seq<Byte>> {
      if f.PacketBytes() >= 1 then Cut(Raw(pushes), f.PacketBytes()) else []
    }

    /** The pushes come out as they were cut up. */
    ghost predicate AmpleAndWhole() { f.Valid() && AmpleRun(pushes, f) && AllWhole(pushes, f) }

    predicate Ends() { pushes != [] && pushes[|pushes| - 1].eos }
  }

  /** The sink is ready for the piece's first push. */
  ghost predicate Starts(sink: SinkVITA49, s: Piece)
    reads sink, sink.spareBuffer
  {
    s.Shaped() && s.pushes != [] && Begins(sink, s.pushes[0], s.merges[0], s.f, s.first)
  }

  /** After i pushes, none of which ended the stream. */
  ghost predicate Reached(sink: SinkVITA49, s: Piece, queue: seq<Packet>, i: nat)
    reads sink, sink.spareBuffer
  {
    && s.Shaped() && i <= |s.pushes| && s.pushes != []
    && sink.workQueue2 == queue + s.Before(i).packets
    && s.f.PacketBytes() <= sink.spareBuffer.Length
    && if i == 0 then Starts(sink, s) else Holds(sink, s.Before(i), s.f, s.first)
  }

  /** The i-th push. */
  method ServeNext(sink: SinkVITA49, s: Piece, ghost queue: seq<Packet>, i: nat)
    requires s.Valid() && i < |s.pushes| && Reached(sink, s, queue, i)
    modifies sink, sink.spareBuffer
    ensures sink.spareBuffer == old(sink.spareBuffer)
    ensures sink.workQueue2 == queue + Emitted(s.Before(i + 1))
    ensures if s.pushes[i].eos then Cleared(sink) else Reached(sink, s, queue, i + 1)
  {
    hide PushOutcome, WholeSamples, Format.PacketBytes, Holds, Begins, RunOf, Legal, MemoryFor, Keeps;
    hide Piece.Before, LegalPush, Cleared;
    ghost var r, o := StepOf(s, i);
    ServeOne(sink, r, s.pushes[i], s.beyonds[i], s.merges[i], s.f, s.first, o);
  }

  /** All pushes but the last. */
  method ServeFront(sink: SinkVITA49, s: Piece, ghost queue: seq<Packet>) returns (last: nat)
    requires s.Valid() && Reached(sink, s, queue, 0)
    modifies sink, sink.spareBuffer
    ensures sink.spareBuffer == old(sink.spareBuffer)
    ensures last + 1 == |s.pushes| && Reached(sink, s, queue, last)
  {
    assert s.pushes != [];
    hide Format.PacketBytes, Legal, MemoryFor, Keeps, Reached, Emitted, Piece.Before, Piece.Valid, Cleared;
    last := 0;
    while last < |s.pushes| - 1
      invariant 0 <= last < |s.pushes| && Reached(sink, s, queue, last) && sink.spareBuffer == old(sink.spareBuffer)
    {
      NotLast(s, last);
      ServeNext(sink, s, queue, last);
      last := last + 1;
    }
  }

  /** All pushes of a piece: the queue receives exactly the run's packets. If the last one ends the stream,
      everything is reset; if not, the sink holds what is carried. */
  method ServePiece(sink: SinkVITA49, s: Piece)
    requires s.Valid() && Starts(sink, s) && s.f.PacketBytes() <= sink.spareBuffer.Length
    modifies sink, sink.spareBuffer
    ensures sink.spareBuffer == old(sink.spareBuffer)
    ensures sink.workQueue2 == old(sink.workQueue2) + Emitted(s.All())
    ensures if s.Ends() then Cleared(sink) else Holds(sink, s.All(), s.f, s.first)
  {
    ghost var queue := sink.workQueue2;
    NothingServed(sink, s);
    hide Format.PacketBytes, Holds, Starts, Legal, MemoryFor, Keeps, Reached, Emitted;
    hide Piece.All, Piece.Before, Piece.Valid, Piece.Ends, Piece.Shaped, Cleared;
    var last := ServeFront(sink, s, queue);
    ServeNext(sink, s, queue, last);
    PieceServed(sink, s, queue, last);
  }

  /** After the last push. */
  lemma PieceServed(sink: SinkVITA49, s: Piece, queue: seq<Packet>, last: nat)
    requires s.Valid() && last + 1 == |s.pushes| && sink.workQueue2 == queue + Emitted(s.Before(last + 1))
    requires if s.pushes[last].eos then Cleared(sink) else Reached(sink, s, queue, last + 1)
    ensures sink.workQueue2 == queue + Emitted(s.All())
    ensures if s.Ends() then Cleared(sink) else Holds(sink, s.All(), s.f, s.first)
  {
    hide Emitted, Cleared, RunOf;
    WholePiece(s);
    if !s.Ends() { ReachedEnd(sink, s, queue); }
  }

  lemma NothingServed(sink: SinkVITA49, s: Piece)
    requires s.Valid() && Starts(sink, s) && s.f.PacketBytes() <= sink.spareBuffer.Length
    ensures Reached(sink, s, sink.workQueue2, 0)
  {
  }

  lemma NotLast(s: Piece, i: nat)
    requires s.Valid() && i < |s.pushes| - 1
    ensures !s.pushes[i].eos
  {
  }

  lemma WholePiece(s: Piece)
    requires s.Valid()
    ensures s.Before(|s.pushes|) == s.All()
  {
    assert s.pushes[..|s.pushes|] == s.pushes && s.beyonds[..|s.pushes|] == s.beyonds;
  }

  lemma ReachedEnd(sink: SinkVITA49, s: Piece, queue: seq<Packet>)
    requires s.Valid() && s.pushes != [] && Reached(sink, s, queue, |s.pushes|)
    ensures Holds(sink, s.All(), s.f, s.first)
  {
    WholePiece(s);
  }

  /** The run so far and its next step. */
  lemma StepOf(s: Piece, i: nat) returns (r: Run, o: Outcome)
    requires s.Valid() && i < |s.pushes|
    ensures r == s.Before(i) && WholeSamples(|r.carry|, s.f) && |r.carry| < s.f.PacketBytes()
    ensures LegalPush(s.pushes[i], s.f) && |s.beyonds| == |s.pushes| && |s.beyonds[i]| >= s.f.PacketBytes()
    ensures o == PushOutcome(r.carry, s.pushes[i], s.beyonds[i], s.f.multiplier, s.f, s.first + |r.packets|)
    ensures s.Before(i + 1) == Run(r.packets + o.packets, o.carry, o.flush)
    ensures r.flush == [] && (!s.pushes[i].eos ==> o.flush == [])
    ensures i == 0 ==> r == Run([], [], [])
    ensures i > 0 ==> Keeps(s.merges[i], s.f)
  {
    hide PushOutcome, WholeSamples, Format.PacketBytes, Input, Packs, Rest, Keeps;
    r := BeforeLengths(s, i);
    var next := BeforeLengths(s, i + 1);
    o := PushOutcome(r.carry, s.pushes[i], s.beyonds[i], s.f.multiplier, s.f, s.first + |r.packets|);
    assert s.beyonds[..i + 1] == s.beyonds[..i] + [s.beyonds[i]];
    assert s.pushes[..i + 1][..i] == s.pushes[..i];
    RunSnoc(s.pushes[..i + 1], s.beyonds[..i], s.beyonds[i], s.f, s.first);
  }

  lemma BeforeLengths(s: Piece, i: nat) returns (r: Run)
    requires s.Valid() && i <= |s.pushes|
    ensures r == s.Before(i) && WholeSamples(|r.carry|, s.f) && |r.carry| < s.f.PacketBytes()
    ensures i == 0 || !s.pushes[i - 1].eos ==> r.flush == []
    ensures i == 0 ==> r == Run([], [], [])
  {
    hide PushOutcome, WholeSamples, Format.PacketBytes, Input, Packs, Rest;
    r := RunLengths(s.pushes[..i], s.beyonds[..i], s.f, s.first);
  }

  // ---- one format for a whole stream ----

  /** A whole stream in one format, from an empty spare buffer: when every push is ample the payloads are the whole
      samples cut into packets, and when every push is whole too, all bytes pushed. */
  method Serve(sink: SinkVITA49, s: Piece)
    requires s.Valid() && s.Ends() && Starts(sink, s) && s.f.PacketBytes() <= sink.spareBuffer.Length
    modifies sink, sink.spareBuffer
    ensures sink.workQueue2 == old(sink.workQueue2) + Emitted(s.All())
    ensures Cleared(sink)
    ensures s.f.PacketBytes() >= 1
    ensures AmpleRun(s.pushes, s.f) ==>
              Payloads(sink.workQueue2[|old(sink.workQueue2)|..]) == Cut(Input(s.pushes, s.f), s.f.PacketBytes())
    ensures AmpleRun(s.pushes, s.f) && AllWhole(s.pushes, s.f) ==>
              Payloads(sink.workQueue2[|old(sink.workQueue2)|..]) == Cut(Raw(s.pushes), s.f.PacketBytes())
  {
    s.f.PacketBytesAligned();
    ServePiece(sink, s);
    hide AmpleRun, AllWhole, RunOf, Cut, Payloads, Input, Raw, Emitted, Format.PacketBytes;
    if AmpleRun(s.pushes, s.f) {
      RunRefinesCut(s.pushes, s.beyonds, s.f, s.first);
      InputIsRaw(s.pushes, s.f);
    }
  }

  // ---- formats that change while nothing is carried ----

  /** The pieces of a stream: only the last one ends it; the others end on a full packet, so that nothing is carried
      into a merge that sets another format; a mode may change where that does no harm. */
  ghost predicate Stream(pieces: seq<Piece>) {
    && pieces != []
    && (forall k :: 0 <= k < |pieces| ==> IsPiece(pieces[k], k == |pieces| - 1))
    && (forall k :: 0 < k < |pieces| ==> Follows(pieces[k - 1], pieces[k]))
  }

  ghost predicate IsPiece(s: Piece, last: bool) {
    && s.Valid() && s.pushes != [] && Sets(s.merges[0], s.f)
    && (last <==> s.Ends()) && s.f.PacketBytes() >= 1
    && (!last ==> Rest(|Input(s.pushes, s.f)|, s.f.PacketBytes()) == 0)
  }

  ghost predicate Follows(s: Piece, t: Piece)
  {
    && t.f.Valid() && t.pushes != [] && t.first == s.first + |s.All().packets|
    && (s.f.multiplier == t.f.multiplier || Harmless(0, |t.pushes[0].data|, t.pushes[0].eos, t.f))
  }

  /** The packets of all pieces, in order. */
  ghost function AllEmitted(pieces: seq<Piece>): seq<Packet> {
    if pieces == [] then [] else AllEmitted(pieces[..|pieces| - 1]) + Emitted(pieces[|pieces| - 1].All())
  }

  /** The cuts of all pieces, each by its own packet size, in order. */
  ghost function AllCut(pieces: seq<Piece>): seq<seq<Byte>> {
    if pieces == [] then [] else AllCut(pieces[..|pieces| - 1]) + pieces[|pieces| - 1].CutUp()
  }

  /** One piece, whether it ends the stream or on a full packet, comes out as its cut. */
  lemma PieceRefines(s: Piece, last: bool)
    requires IsPiece(s, last) && s.AmpleAndWhole()
    ensures Payloads(Emitted(s.All())) == s.CutUp()
  {
    hide AmpleRun, RunOf, Cut, Input, Raw, AllWhole, Format.PacketBytes;
    InputIsRaw(s.pushes, s.f);
    if last {
      RunRefinesCut(s.pushes, s.beyonds, s.f, s.first);
    } else {
      var r := RunLengths(s.pushes, s.beyonds, s.f, s.first);
      RunContents(s.pushes, s.beyonds, s.f, s.first);
      CutFromIsCut(Payloads(r.packets), r.carry, Input(s.pushes, s.f), s.f.PacketBytes());
      assert Emitted(r) == r.packets;
    }
  }

  /** So the payloads of a stream whose formats change only between full packets are its pieces' cuts, one after
      another: nothing is lost, doubled or moved across a change of format. */
  lemma {:induction false} PiecesRefine(pieces: seq<Piece>)
    requires forall k :: 0 <= k < |pieces| ==> IsPiece(pieces[k], pieces[k].Ends()) && pieces[k].AmpleAndWhole()
    ensures Payloads(AllEmitted(pieces)) == AllCut(pieces)
  {
    if pieces != [] {
      hide IsPiece, Piece.AmpleAndWhole, Piece.CutUp, Piece.All, Piece.Ends, Payloads, Emitted;
      var last := pieces[|pieces| - 1];
      PiecesRefine(pieces[..|pieces| - 1]);
      PieceRefines(last, last.Ends());
      PayloadsAppend(AllEmitted(pieces[..|pieces| - 1]), Emitted(last.All()));
    } else {
      assert Payloads([]) == [];
    }
  }

  lemma PieceIs(s: Piece, last: bool)
    requires IsPiece(s, last)
    ensures s.Valid() && s.Ends() == last && IsPiece(s, s.Ends())
  {
  }

  /** The sink between two pieces: what the next one needs. */
  lemma NextBegins(sink: SinkVITA49, s: Piece, t: Piece, last: bool)
    requires IsPiece(s, false) && IsPiece(t, last) && Follows(s, t) && Holds(sink, s.All(), s.f, s.first)
    ensures Starts(sink, t)
  {
    hide RunOf, Input, Harmless;
    var r := RunLengths(s.pushes, s.beyonds, s.f, s.first);
    assert r.carry == [];
  }

  /** The service thread over a stream whose format changes while nothing is carried: the queue receives the packets
      of all pieces, and when every push is ample and whole, their payloads are the pieces' cuts. */
  method ServePieces(sink: SinkVITA49, pieces: seq<Piece>)
    requires Stream(pieces) && Starts(sink, pieces[0])
    requires forall k :: 0 <= k < |pieces| ==> pieces[k].f.PacketBytes() <= sink.spareBuffer.Length
    modifies sink, sink.spareBuffer
    ensures sink.workQueue2 == old(sink.workQueue2) + AllEmitted(pieces)
    ensures Cleared(sink)
    ensures (forall k :: 0 <= k < |pieces| ==> pieces[k].AmpleAndWhole()) ==>
              Payloads(sink.workQueue2[|old(sink.workQueue2)|..]) == AllCut(pieces)
  {
    hide Holds, Starts, Piece.All, Piece.AmpleAndWhole, Piece.Valid, Piece.Ends, Format.PacketBytes, Follows, IsPiece;
    hide AllCut, Payloads, Emitted;
    ghost var queue := sink.workQueue2;
    var i, last := 0, |pieces| - 1;
    while i < last
      invariant 0 <= i <= last && sink.spareBuffer == old(sink.spareBuffer)
      invariant sink.workQueue2 == queue + AllEmitted(pieces[..i])
      invariant Starts(sink, pieces[i])
    {
      PieceIs(pieces[i], false);
      ServePiece(sink, pieces[i]);
      NextBegins(sink, pieces[i], pieces[i + 1], i + 1 == last);
      assert pieces[..i + 1][..i] == pieces[..i];
      i := i + 1;
    }
    PieceIs(pieces[last], true);
    ServePiece(sink, pieces[last]);
    assert pieces[..last + 1] == pieces;
    if forall k :: 0 <= k < |pieces| ==> pieces[k].AmpleAndWhole() {
      forall k | 0 <= k < |pieces| ensures IsPiece(pieces[k], pieces[k].Ends()) { PieceIs(pieces[k], k == last); }
      PiecesRefine(pieces);
    }
  }

  // ---- the packet size ----

  /** The buffer is large enough: a packet in the format createPayload computes, after any number of its
      calls, fits the spare buffer allocated for the reserved payload size. */
  lemma PacketFitsBuffer(e: PayloadSizing.Encapsulation, size: PayloadSizing.Frame, modes: seq<bool>, payload: int,
                         reserved: int, f: Format)
    requires e.dataPackets && size <= 8 && 0 <= payload <= reserved
    requires f.Valid() && f.size == size
    requires f.samples == TruncDiv(PayloadSizing.PayloadRun(e, size, modes, payload), SampleBytes(f.size, f.multiplier))
    ensures f.PacketBytes() <= reserved + 28
  {
    PayloadSizing.SpareBufferSuffices(e, size, modes, payload, reserved);
    PacketSamples(f);
    var frame: PayloadSizing.Frame := SampleBytes(f.size, f.multiplier);
  }

  /** After any acts on the settings, the packet of the last createPayload fits if and only if FitsAfter says so,
      which for all acts is decided by the size requested at first. */
  lemma PacketFitsIff(acts: seq<PayloadLife.Act>, reserved: int, f: Format)
    requires PayloadLife.LegalToCall(acts, true, true) && f.Valid()
    requires var call := acts[|acts| - 1].call;
             && f.size == call.size && f.multiplier == call.mode + 1
             && f.samples == TruncDiv(PayloadLife.Run(acts, reserved), call.Bytes())
    ensures f.PacketBytes() <= reserved + 28 <==> PayloadLife.FitsAfter(acts, reserved)
  {
    PacketSamples(f);
  }
}
