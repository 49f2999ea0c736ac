/** Context before data: when a stream's data packets have a context packet of the same setup before them. */
module ContextOrder {
  import opened Lifecycle

  /** Is there a context packet of the given setup among the first n packets? */
  predicate HasContext(queue: seq<Item>, n: nat, epoch: nat)
    requires n <= |queue|
  {
    exists j :: 0 <= j < n && queue[j].Context? && queue[j].epoch == epoch
  }

  ghost predicate Preceded(queue: seq<Item>) {
    forall i :: 0 <= i < |queue| && queue[i].Data? && queue[i].ranWhenConfigured ==>
      HasContext(queue, i, queue[i].epoch)
  }

  predicate Covered(s: Life) {
    s.samplesPerPacket > 0 && s.ranWhenConfigured ==> HasContext(s.queue, |s.queue|, s.Epoch())
  }

  ghost predicate ContextFirst(s: Life) { Preceded(s.queue) && Covered(s) }

  /** The push after which nothing of it is seen: it ends the stream with no packet out. */
  predicate LeavesNothing(s: Life, push: Push, w: World) {
    push.eos && w.removable && push.completed == 0 && !push.remains && s.carried == {}
  }

  /** The step that loses the context packet: a foreign push whose SRI gives a stream that runs its first
      packet size, when no context packet of that setup is out. */
  predicate Uncovers(s: Life, op: Op) {
    && Foreign(s, op) && MergeDue(s, op.push) && Reported(s, op.push)
    && s.samplesPerPacket == 0 && op.push.samplesPerPacket > 0 && s.runThread
    && !HasContext(s.queue, |s.queue|, s.Epoch())
    && !LeavesNothing(s, op.push, op.world)
  }

  lemma HasContextExtend(queue: seq<Item>, more: seq<Item>, n: nat, epoch: nat)
    requires n <= |queue| && HasContext(queue, n, epoch)
    ensures forall m: nat :: n <= m <= |queue + more| ==> HasContext(queue + more, m, epoch)
  {
    var j :| 0 <= j < n && queue[j].Context? && queue[j].epoch == epoch;
    assert (queue + more)[j] == queue[j];
  }

  lemma NoContextExtend(queue: seq<Item>, more: seq<Item>, epoch: nat)
    requires !HasContext(queue, |queue|, epoch)
    ensures !HasContext(queue + more, |queue|, epoch)
    ensures (forall i :: 0 <= i < |more| ==> more[i].Data?) ==> !HasContext(queue + more, |queue + more|, epoch)
  {
    forall j | 0 <= j < |queue| ensures (queue + more)[j] == queue[j] {}
  }

  /** Appending packets keeps the order when appended data already has its context. */
  lemma AppendPreceded(queue: seq<Item>, more: seq<Item>)
    requires Preceded(queue)
    requires forall i :: 0 <= i < |more| && more[i].Data? && more[i].ranWhenConfigured ==>
               HasContext(queue, |queue|, more[i].epoch)
    ensures Preceded(queue + more)
  {
    var all := queue + more;
    forall i | 0 <= i < |all| && all[i].Data? && all[i].ranWhenConfigured
      ensures HasContext(all, i, all[i].epoch)
    {
      if i < |queue| {
        assert queue[i] == all[i];
        HasContextExtend(queue, more, i, all[i].epoch);
      } else {
        assert more[i - |queue|] == all[i];
        HasContextExtend(queue, more, |queue|, all[i].epoch);
      }
    }
  }

  /** Data without its context stays without it, whatever comes after. */
  lemma AppendUnpreceded(queue: seq<Item>, more: seq<Item>)
    requires more != [] && more[0].Data? && more[0].ranWhenConfigured && !HasContext(queue, |queue|, more[0].epoch)
    ensures !Preceded(queue + more)
  {
    NoContextExtend(queue, more, more[0].epoch);
    assert (queue + more)[|queue|] == more[0];
  }

  lemma CoveredExtend(queue: seq<Item>, more: seq<Item>, epoch: nat)
    ensures HasContext(queue, |queue|, epoch) ==> HasContext(queue + more, |queue + more|, epoch)
  {
    if HasContext(queue, |queue|, epoch) { HasContextExtend(queue, more, |queue|, epoch); }
  }

  lemma EmitContextFirst(s: Life, push: Push)
    requires ContextFirst(s) && s.samplesPerPacket > 0
    ensures ContextFirst(Emit(s, push))
  {
    hide Preceded, HasContext;
    DataItemsAre(s, push, push.completed);
    AppendPreceded(s.queue, DataItems(s, push, push.completed));
    CoveredExtend(s.queue, DataItems(s, push, push.completed), s.Epoch());
  }

  lemma FlushContextFirst(d: Life)
    requires ContextFirst(d) && d.samplesPerPacket > 0
    ensures ContextFirst(FlushRest(d))
  {
    hide Preceded, HasContext;
    AppendPreceded(d.queue, LastItem(d));
    CoveredExtend(d.queue, LastItem(d), d.Epoch());
  }

  lemma DeliverContextFirst(c: Life, push: Push, w: World, hashOf: string -> nat)
    requires ContextFirst(c)
    ensures ContextFirst(Deliver(c, push, w))
  {
    if c.samplesPerPacket > 0 {
      EmitContextFirst(c, push);
      assert Emit(c, push).samplesPerPacket == c.samplesPerPacket;
      FlushContextFirst(Emit(c, push));
      QuietContextFirst(FlushRest(Emit(c, push)), w, push.stream, hashOf);
    }
    hide ContextFirst, Emit, FlushRest, TearDown;
  }

  /** Delivering from a state without its context packet: only a stream that leaves nothing is saved. */
  lemma DeliverUncovered(c: Life, push: Push, w: World)
    requires Preceded(c.queue) && c.samplesPerPacket > 0 && c.ranWhenConfigured
    requires !HasContext(c.queue, |c.queue|, c.Epoch())
    ensures ContextFirst(Deliver(c, push, w)) <==> LeavesNothing(c, push, w)
  {
    var d := Emit(c, push);
    EmitUncovered(c, push);
    FlushUncovered(d);
    EmitCarries(c, push);
    hide Preceded, HasContext, Emit, FlushRest;
    if push.eos && w.removable {
      assert ContextFirst(TearDown(FlushRest(d), w)) <==> Preceded(FlushRest(d).queue);
    }
  }

  lemma EmitCarries(c: Life, push: Push)
    ensures Emit(c, push).carried == {} && push.completed == 0 <==>
            push.completed == 0 && !push.remains && c.carried == {}
  {
    hide DataItems;
    assert push.remains ==> Origin(push.stream, c.Epoch()) in Emit(c, push).carried;
  }

  lemma EmitUncovered(c: Life, push: Push)
    requires Preceded(c.queue) && c.ranWhenConfigured && !HasContext(c.queue, |c.queue|, c.Epoch())
    ensures var d := Emit(c, push);
            && !HasContext(d.queue, |d.queue|, d.Epoch()) && d.ranWhenConfigured
            && d.samplesPerPacket == c.samplesPerPacket
            && (Preceded(d.queue) <==> push.completed == 0)
  {
    var items := DataItems(c, push, push.completed);
    DataItemsAre(c, push, push.completed);
    hide Preceded, HasContext, DataItems;
    NoContextExtend(c.queue, items, c.Epoch());
    if push.completed > 0 {
      AppendUnpreceded(c.queue, items);
    } else {
      assert c.queue + items == c.queue;
    }
  }

  lemma FlushUncovered(d: Life)
    requires d.ranWhenConfigured && !HasContext(d.queue, |d.queue|, d.Epoch())
    ensures var f := FlushRest(d);
            && !HasContext(f.queue, |f.queue|, f.Epoch()) && f.ranWhenConfigured
            && f.samplesPerPacket == d.samplesPerPacket
            && (Preceded(f.queue) <==> Preceded(d.queue) && d.carried == {})
  {
    hide Preceded, HasContext;
    NoContextExtend(d.queue, LastItem(d), d.Epoch());
    if d.carried != {} {
      AppendUnpreceded(d.queue, LastItem(d));
    } else {
      assert d.queue + LastItem(d) == d.queue;
    }
  }

  lemma EnqueueContextFirst(s: Life)
    requires ContextFirst(s)
    ensures ContextFirst(EnqueueContext(s))
  {
    hide Preceded, HasContext;
    var more := [Context(s.Epoch(), s.hash)];
    AppendPreceded(s.queue, more);
    CoveredExtend(s.queue, more, s.Epoch());
  }

  /** The active stream's own SRI brings its context packet. */
  lemma ConfigureContextFirst(s: Life, samplesPerPacket: nat)
    requires ContextFirst(s) && s.streamID == s.sriStream
    ensures ContextFirst(Configure(s, samplesPerPacket))
  {
    hide Preceded;
    var c := Configure(s, samplesPerPacket);
    var more := [Context(s.Epoch(), s.hash)];
    AppendPreceded(s.queue, more);
    if s.runThread {
      assert c.queue == s.queue + more && (s.queue + more)[|s.queue|].Context?;
      assert HasContext(c.queue, |c.queue|, c.Epoch());
    }
  }

  /** Only the queue, the packet size and the setup matter. */
  lemma SameContextFirst(s: Life, t: Life)
    requires ContextFirst(s) && t.queue == s.queue
    requires t.samplesPerPacket == 0 ||
             (t.names == s.names && t.samplesPerPacket == s.samplesPerPacket &&
              t.ranWhenConfigured == s.ranWhenConfigured)
    ensures ContextFirst(t)
  {
    hide HasContext, Preceded;
  }

  predicate SamePackets(s: Life, t: Life) {
    && t.queue == s.queue && t.names == s.names
    && t.samplesPerPacket == s.samplesPerPacket && t.ranWhenConfigured == s.ranWhenConfigured
  }

  lemma ThreadFields(s: Life, w: World)
    ensures SamePackets(s, DestroyTx(s)) && SamePackets(s, LaunchTx(s, w))
  {
  }

  lemma QuietFields(s: Life, w: World)
    ensures SamePackets(s, Prelude(s, w))
    ensures TearDown(s, w).queue == s.queue && (TearDown(s, w) == s || TearDown(s, w).samplesPerPacket == 0)
  {
    ThreadFields(s.(hash := 0, streamID := ""), w);
    hide DestroyTx, LaunchTx;
    ThreadFields(s, w);
    var a := if s.createMem then DestroyTx(s).(createMem := false) else s;
    ThreadFields(a, w);
    var b := if a.shouldUpdateStream then DestroyTx(a).(shouldUpdateStream := false) else a;
    ThreadFields(b, w);
  }

  lemma QuietContextFirst(s: Life, w: World, stream: string, hashOf: string -> nat)
    requires ContextFirst(s)
    ensures ContextFirst(TearDown(s, w)) && ContextFirst(Prelude(s, w))
    ensures Inv(s) && !s.Active() ==> ContextFirst(Setup(s, stream, hashOf))
    ensures ContextFirst(s.(shouldUpdateStream := true))
  {
    QuietFields(s, w);
    SameContextFirst(s, Prelude(s, w));
    SameContextFirst(s, s.(shouldUpdateStream := true));
    hide TearDown, Prelude, ContextFirst;
    SameContextFirst(s, TearDown(s, w));
    if Inv(s) && !s.Active() { SameContextFirst(s, Setup(s, stream, hashOf)); }
  }

  lemma MergeContextFirst(s: Life, push: Push)
    requires ContextFirst(s) && push.stream == s.streamID
    ensures ContextFirst(MergeSri(s, push))
  {
    hide Configure, HasContext;
    ConfigureContextFirst(s.(sriStream := push.stream, waitingForSRI := false), push.samplesPerPacket);
  }

  /** A foreign SRI is merged without a context packet. */
  lemma ForeignMergeIs(s: Life, push: Push)
    requires push.stream != s.streamID
    ensures var c, sets := MergeSri(s, push), MergeDue(s, push) && Reported(s, push);
            && c.queue == s.queue && c.names == s.names && c.carried == s.carried
            && c.samplesPerPacket == (if sets then push.samplesPerPacket else s.samplesPerPacket)
            && c.ranWhenConfigured == if sets && s.samplesPerPacket == 0 then s.runThread else s.ranWhenConfigured
  {
  }

  /** So the order is lost exactly where the packet was needed. */
  lemma ForeignMerge(s: Life, push: Push)
    requires ContextFirst(s) && push.stream != s.streamID
    ensures var c := MergeSri(s, push);
            && c.queue == s.queue && c.names == s.names && c.carried == s.carried
            && (ContextFirst(c) <==>
                !(MergeDue(s, push) && Reported(s, push) && s.samplesPerPacket == 0 && push.samplesPerPacket > 0 &&
                  s.runThread && !HasContext(s.queue, |s.queue|, s.Epoch())))
            && (!ContextFirst(c) ==> c.samplesPerPacket > 0 && c.ranWhenConfigured)
  {
    ForeignMergeIs(s, push);
    hide Preceded, HasContext, MergeDue, Reported, MergeSri;
  }

  lemma ServiceContextFirstIff(s: Life, push: Push, w: World, hashOf: string -> nat)
    requires ContextFirst(s) && Inv(s)
    ensures ContextFirst(SingleService(s, push, w, hashOf)) <==> !Uncovers(s, Service(push, w))
  {
    QuietContextFirst(s, w, push.stream, hashOf);
    var b := if s.Active() then s else Setup(s, push.stream, hashOf);
    if Ready(s, push.stream, w).1 {
      if b.streamID == push.stream {
        MergeContextFirst(b, push);
        DeliverContextFirst(MergeSri(b, push), push, w, hashOf);
      } else {
        ForeignService(s, push, w, hashOf);
      }
    }
    hide ContextFirst, TearDown, MergeSri, Deliver, Inv, HasContext, LeavesNothing, MergeDue, Reported;
  }

  lemma ForeignService(s: Life, push: Push, w: World, hashOf: string -> nat)
    requires ContextFirst(s) && Foreign(s, Service(push, w))
    ensures ContextFirst(SingleService(s, push, w, hashOf)) <==> !Uncovers(s, Service(push, w))
  {
    var c := MergeSri(s, push);
    ForeignMerge(s, push);
    hide MergeSri, Deliver, HasContext, Preceded;
    if ContextFirst(c) {
      DeliverContextFirst(c, push, w, hashOf);
    } else {
      DeliverUncovered(c, push, w);
    }
  }

  /** One step keeps context before data exactly when it is not such a foreign push. */
  lemma StepContextFirstIff(s: Life, op: Op, hashOf: string -> nat)
    requires ContextFirst(s) && Inv(s)
    ensures ContextFirst(Step(s, op, hashOf)) <==> !Uncovers(s, op)
  {
    hide ContextFirst, Inv, Prelude, SingleService, TearDown, EnqueueContext, HasContext, MergeDue, Reported;
    match op
    case Prepare(w) => QuietContextFirst(s, w, "", hashOf);
    case Service(push, w) => ServiceContextFirstIff(s, push, w, hashOf);
    case TimerTick => EnqueueContextFirst(s);
    case NetworkSettingsChanged => QuietContextFirst(s, World(0, false, false, false, false), "", hashOf);
    case Stop(w) => QuietContextFirst(s, w, "", hashOf);
  }

  lemma InitialContextFirst()
    ensures ContextFirst(Initial())
  {
  }

  /** Whatever force_transmit is, as long as no foreign push uncovers it, a data packet of a stream that was
      configured while the transmit thread ran has a context packet of the same setup before it. */
  lemma {:induction false} RunContextFirst(ops: seq<Op>, hashOf: string -> nat)
    requires forall id :: hashOf(id) != 0
    requires forall i :: 0 <= i < |ops| ==> !Uncovers(Run(ops[..i], hashOf), ops[i])
    ensures ContextFirst(Run(ops, hashOf))
  {
    hide ContextFirst, Inv, Uncovers, Step;
    if ops == [] {
      InitialContextFirst();
    } else {
      var before := ops[..|ops| - 1];
      forall i | 0 <= i < |before| ensures !Uncovers(Run(before[..i], hashOf), before[i]) {
        assert before[..i] == ops[..i];
      }
      RunContextFirst(before, hashOf);
      RunKeepsInv(before, hashOf);
      StepContextFirstIff(Run(before, hashOf), ops[|ops| - 1], hashOf);
    }
  }

  /** A run keeps the order throughout exactly when no push uncovers a stream. */
  lemma RunContextFirstIff(ops: seq<Op>, hashOf: string -> nat)
    requires forall id :: hashOf(id) != 0
    ensures (forall i :: 0 <= i <= |ops| ==> ContextFirst(Run(ops[..i], hashOf))) <==>
            (forall i :: 0 <= i < |ops| ==> !Uncovers(Run(ops[..i], hashOf), ops[i]))
  {
    hide ContextFirst, Inv, Uncovers, Step, Run;
    if forall i :: 0 <= i <= |ops| ==> ContextFirst(Run(ops[..i], hashOf)) {
      forall i | 0 <= i < |ops| ensures !Uncovers(Run(ops[..i], hashOf), ops[i]) {
        RunKeepsInv(ops[..i], hashOf);
        RunNext(ops, i, hashOf);
        StepContextFirstIff(Run(ops[..i], hashOf), ops[i], hashOf);
      }
    }
    if forall i :: 0 <= i < |ops| ==> !Uncovers(Run(ops[..i], hashOf), ops[i]) {
      forall k | 0 <= k <= |ops| ensures ContextFirst(Run(ops[..k], hashOf)) {
        forall i | 0 <= i < k ensures !Uncovers(Run(ops[..k][..i], hashOf), ops[..k][i]) {
          assert ops[..k][..i] == ops[..i];
        }
        RunContextFirst(ops[..k], hashOf);
      }
    }
  }

  /** Such a run exists. A stream ends and starts again with an SRI that holds both private keywords, so its
      merge reports no change and no packet size is set; then another stream's SRI, forced in, sets it
      without a context packet. */
  lemma ForceLosesContext(hashOf: string -> nat) returns (ops: seq<Op>)
    requires forall id :: hashOf(id) != 0
    ensures |ops| == 5 && Uncovers(Run(ops[..4], hashOf), ops[4])
    ensures !ContextFirst(Run(ops, hashOf))
  {
    var w := World(1, false, true, false, true);
    var p := Prepare(w);
    var a := Service(Push("a", true, true, 4, 1, false, true), w);
    var again := Service(Push("a", true, false, 4, 0, false, false), w);
    var b := Service(Push("b", true, true, 4, 1, false, false), w.(force := true));
    var r2, r4 := [] + [p] + [a], [] + [p] + [a] + [p] + [again];
    ops := r4 + [b];
    RunSnoc([], p, hashOf);
    RunSnoc([] + [p], a, hashOf);
    RunSnoc(r2, p, hashOf);
    RunSnoc(r2 + [p], again, hashOf);
    assert ops[..4] == r4;
    var s2, s := Run(r2, hashOf), Run(r4, hashOf);
    EndedRun(s2, a, hashOf);
    RestartedRun(s2, again, hashOf);
    assert "a"[0] != "b"[0];
    assert Uncovers(s, b);
    RunKeepsInv(r4, hashOf);
    RunSnoc(r4, b, hashOf);
    hide Step, ContextFirst, Uncovers;
    StepContextFirstIff(s, b, hashOf);
  }

  /** The stream starts again: its merge reports nothing. */
  lemma RestartedRun(s2: Life, again: Op, hashOf: string -> nat)
    requires again == Service(Push("a", true, false, 4, 0, false, false), World(1, false, true, false, true))
    requires |s2.queue| == 2 && s2.queue[0].Context? && (forall i :: 0 <= i < 2 ==> s2.queue[i].epoch == 1)
    requires s2.names == ["a"] && !s2.Active() && s2.sriStream == "a" && !s2.transmitThread && s2.samplesPerPacket == 0
    requires s2.waitingForSRI && s2.carried == {} && !s2.createMem && !s2.shouldUpdateStream && hashOf("a") != 0
    ensures var s := Step(Prelude(s2, again.world), again, hashOf);
            && s.Active() && s.streamID == "a" && s.attach && s.sriStream == "a" && s.runThread && s.carried == {}
            && s.samplesPerPacket == 0 && ContextFirst(s) && !HasContext(s.queue, |s.queue|, s.Epoch())
  {
    var s := Step(Prelude(s2, again.world), again, hashOf);
    assert s.queue == s2.queue && s.names == ["a", "a"];
    assert s.queue[0].Context?;
  }

  /** The first stream of that run: one context packet, one data packet, and everything is taken down. */
  lemma EndedRun(s: Life, a: Op, hashOf: string -> nat)
    requires a == Service(Push("a", true, true, 4, 1, false, true), World(1, false, true, false, true))
    requires s == Step(Prelude(Initial(), a.world), a, hashOf) && hashOf("a") != 0
    ensures |s.queue| == 2 && s.queue[0] == Context(1, hashOf("a")) && s.queue[1].Data? && s.queue[1].epoch == 1
    ensures s.names == ["a"] && !s.Active() && s.sriStream == "a" && !s.transmitThread && s.samplesPerPacket == 0
    ensures s.waitingForSRI && s.carried == {} && !s.createMem && !s.shouldUpdateStream
  {
    var b := Setup(Prelude(Initial(), a.world), "a", hashOf);
    assert b.runThread && b.attach;
    var c := MergeSri(b, a.push);
    assert c.queue == [Context(1, hashOf("a"))] && c.carried == {};
    DataItemsAre(c, a.push, 1);
    assert Emit(c, a.push).queue == c.queue + DataItems(c, a.push, 1);
  }
}
