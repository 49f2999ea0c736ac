/** Stream isolation: no packet mixes streams, and when force_transmit makes one that does. */
module Isolation {
  import opened Lifecycle

  /** A packet belongs to the stream of its setup: it has that stream's hash, and samples of that setup only. */
  predicate PureOf(item: Item, names: seq<string>, hashOf: string -> nat) {
    && 1 <= item.epoch <= |names| && item.hash == hashOf(names[item.epoch - 1])
    && (item.Data? ==> item.origins <= {Origin(names[item.epoch - 1], item.epoch)})
  }

  ghost predicate AllPure(queue: seq<Item>, names: seq<string>, hashOf: string -> nat) {
    forall i :: 0 <= i < |queue| ==> PureOf(queue[i], names, hashOf)
  }

  /** The active stream is the last one set up; carried samples and queued packets are pure. */
  ghost predicate Isolated(s: Life, hashOf: string -> nat) {
    && (s.Active() ==> Named(s, hashOf))
    && s.carried <= {s.Here()}
    && AllPure(s.queue, s.names, hashOf)
  }

  predicate Named(s: Life, hashOf: string -> nat) {
    s.names != [] && s.streamID == s.names[|s.names| - 1] && s.hash == hashOf(s.streamID)
  }

  /** The step that mixes: a foreign push that puts out a packet or leaves samples behind. */
  predicate Mixes(s: Life, op: Op) {
    Foreign(s, op) && MergeSri(s, op.push).samplesPerPacket >= 1 && (op.push.completed > 0 || op.push.remains)
  }

  lemma AppendPure(queue: seq<Item>, more: seq<Item>, names: seq<string>, hashOf: string -> nat)
    ensures AllPure(queue + more, names, hashOf) <==> AllPure(queue, names, hashOf) && AllPure(more, names, hashOf)
  {
    hide PureOf;
    var all := queue + more;
    forall i | 0 <= i < |queue| ensures all[i] == queue[i] {}
    forall i | 0 <= i < |more| ensures all[|queue| + i] == more[i] {}
    if AllPure(queue, names, hashOf) && AllPure(more, names, hashOf) {
      forall i | 0 <= i < |all| ensures PureOf(all[i], names, hashOf) {
        assert all[i] == if i < |queue| then queue[i] else more[i - |queue|];
      }
    }
  }

  /** The packets of a push are pure exactly when it is the active stream's, or there are none. */
  lemma DataPure(s: Life, push: Push, hashOf: string -> nat)
    requires Isolated(s, hashOf) && s.Active()
    ensures AllPure(DataItems(s, push, push.completed), s.names, hashOf) <==>
            push.stream == s.streamID || push.completed == 0
  {
    DataItemsAre(s, push, push.completed);
    var items := DataItems(s, push, push.completed);
    if push.completed > 0 {
      assert Origin(push.stream, s.Epoch()) in items[0].origins;
      assert PureOf(items[0], s.names, hashOf) ==> push.stream == s.streamID;
    }
  }

  lemma CarriedPure(s: Life, hashOf: string -> nat)
    requires s.Active() && Named(s, hashOf)
    ensures PureOf(Data(s.Epoch(), s.hash, s.carried, s.ranWhenConfigured), s.names, hashOf) <==>
            s.carried <= {s.Here()}
  {
  }

  lemma EmitCarriedIff(s: Life, push: Push)
    requires s.carried <= {s.Here()}
    ensures Emit(s, push).carried <= {s.Here()} <==> push.stream == s.streamID || !push.remains
  {
    hide DataItems;
    var pushed := Origin(push.stream, s.Epoch());
    assert push.remains ==> pushed in Emit(s, push).carried;
    assert pushed == s.Here() <==> push.stream == s.streamID;
  }

  lemma EmitIsolatedIff(s: Life, push: Push, hashOf: string -> nat)
    requires Isolated(s, hashOf) && s.Active()
    ensures Isolated(Emit(s, push), hashOf) <==>
            push.stream == s.streamID || (push.completed == 0 && !push.remains)
  {
    hide AllPure, DataItems, CarriedAfter;
    DataPure(s, push, hashOf);
    AppendPure(s.queue, DataItems(s, push, push.completed), s.names, hashOf);
    EmitCarriedIff(s, push);
  }

  /** A flush neither hides nor makes a mixture. */
  lemma FlushIsolatedIff(d: Life, hashOf: string -> nat)
    requires d.Active() && Named(d, hashOf)
    ensures AllPure(FlushRest(d).queue, d.names, hashOf) <==>
            AllPure(d.queue, d.names, hashOf) && d.carried <= {d.Here()}
  {
    hide AllPure, PureOf, Named;
    AppendPure(d.queue, LastItem(d), d.names, hashOf);
    if d.carried != {} {
      OnePure(LastItem(d)[0], d.names, hashOf);
      CarriedPure(d, hashOf);
    } else {
      NonePure(d.names, hashOf);
    }
  }

  lemma NonePure(names: seq<string>, hashOf: string -> nat)
    ensures AllPure([], names, hashOf)
  {
  }

  lemma OnePure(item: Item, names: seq<string>, hashOf: string -> nat)
    ensures AllPure([item], names, hashOf) <==> PureOf(item, names, hashOf)
  {
    assert [item][0] == item;
  }

  lemma TearDownIsolated(s: Life, w: World, hashOf: string -> nat)
    requires Isolated(s, hashOf)
    ensures Isolated(TearDown(s, w), hashOf)
  {
    hide AllPure;
  }

  lemma EndIsolatedIff(d: Life, w: World, hashOf: string -> nat)
    requires d.Active() && Named(d, hashOf)
    ensures Isolated(TearDown(FlushRest(d), w), hashOf) <==> Isolated(d, hashOf)
  {
    hide AllPure, LastItem;
    FlushIsolatedIff(d, hashOf);
    var f := FlushRest(d);
    if w.removable {
      assert !TearDown(f, w).Active() && TearDown(f, w).carried == {};
      assert TearDown(f, w).queue == f.queue && TearDown(f, w).names == d.names;
    } else {
      assert Isolated(f, hashOf) <==> Isolated(d, hashOf);
    }
  }

  lemma DeliverIsolatedIff(c: Life, push: Push, w: World, hashOf: string -> nat)
    requires Isolated(c, hashOf) && c.Active()
    ensures Isolated(Deliver(c, push, w), hashOf) <==>
            c.samplesPerPacket < 1 || push.stream == c.streamID || (push.completed == 0 && !push.remains)
  {
    assert Named(Emit(c, push), hashOf);
    hide Isolated, Emit, FlushRest, TearDown;
    EmitIsolatedIff(c, push, hashOf);
    EndIsolatedIff(Emit(c, push), w, hashOf);
  }

  lemma ContextIsolated(s: Life, hashOf: string -> nat)
    requires Isolated(s, hashOf) && s.Active()
    ensures Isolated(EnqueueContext(s), hashOf)
  {
    var item := Context(s.Epoch(), s.hash);
    AppendPure(s.queue, [item], s.names, hashOf);
    assert PureOf(item, s.names, hashOf);
    hide AllPure, PureOf;
    OnePure(item, s.names, hashOf);
  }

  /** Isolation depends on the stream, the carried samples and the queue only. */
  lemma SameIsolated(s: Life, t: Life, hashOf: string -> nat)
    requires Isolated(s, hashOf) && t.hash == s.hash && t.streamID == s.streamID && t.names == s.names
    requires t.carried == s.carried && t.queue == s.queue
    ensures Isolated(t, hashOf)
  {
    hide AllPure;
  }

  lemma ContextStream(s: Life)
    ensures EnqueueContext(s).streamID == s.streamID && EnqueueContext(s).hash == s.hash
  {
  }

  lemma MergeIsolated(s: Life, push: Push, hashOf: string -> nat)
    requires Isolated(s, hashOf) && s.Active()
    ensures Isolated(MergeSri(s, push), hashOf)
    ensures MergeSri(s, push).streamID == s.streamID && MergeSri(s, push).Active()
  {
    var ran := if s.samplesPerPacket == 0 then s.runThread else s.ranWhenConfigured;
    var m := s.(sriStream := push.stream, waitingForSRI := false);
    var n := m.(ranWhenConfigured := ran, samplesPerPacket := push.samplesPerPacket);
    SameIsolated(s, m, hashOf);
    SameIsolated(s, n, hashOf);
    ContextIsolated(n, hashOf);
    ContextStream(n);
    hide Isolated, EnqueueContext;
    assert Configure(m, push.samplesPerPacket) == EnqueueContext(n);
  }

  lemma PreludeIsolated(s: Life, w: World, hashOf: string -> nat)
    requires Isolated(s, hashOf)
    ensures Isolated(Prelude(s, w), hashOf)
  {
    hide AllPure;
  }

  lemma SetupIsolated(s: Life, stream: string, hashOf: string -> nat)
    requires Isolated(s, hashOf) && Inv(s) && !s.Active() && hashOf(stream) != 0
    ensures Isolated(Setup(s, stream, hashOf), hashOf)
    ensures Setup(s, stream, hashOf).Active() && Setup(s, stream, hashOf).streamID == stream
  {
    var names := s.names + [stream];
    forall i | 0 <= i < |s.queue| ensures PureOf(s.queue[i], names, hashOf) {
      assert PureOf(s.queue[i], s.names, hashOf);
    }
  }

  /** A push keeps an isolated state isolated exactly when it does not mix. */
  lemma ServiceIsolatedIff(s: Life, push: Push, w: World, hashOf: string -> nat)
    requires Isolated(s, hashOf) && Inv(s) && hashOf(push.stream) != 0
    ensures Isolated(SingleService(s, push, w, hashOf), hashOf) <==> !Mixes(s, Service(push, w))
  {
    hide Isolated, TearDown, Setup, MergeSri, Deliver, Inv;
    TearDownIsolated(s, w, hashOf);
    if !s.Active() { SetupIsolated(s, push.stream, hashOf); }
    var b := if s.Active() then s else Setup(s, push.stream, hashOf);
    if Ready(s, push.stream, w).1 {
      MergeIsolated(b, push, hashOf);
      DeliverIsolatedIff(MergeSri(b, push), push, w, hashOf);
    }
  }

  lemma QuietIsolated(s: Life, hashOf: string -> nat)
    requires Isolated(s, hashOf) && Inv(s)
    ensures Isolated(s.(shouldUpdateStream := true), hashOf)
    ensures s.contextThread && !s.waitingForSRI ==> Isolated(EnqueueContext(s), hashOf)
  {
    hide AllPure;
    if !s.waitingForSRI { ContextIsolated(s, hashOf); }
  }

  /** One step keeps an isolated state isolated exactly when it does not mix. */
  lemma StepIsolatedIff(s: Life, op: Op, hashOf: string -> nat)
    requires Isolated(s, hashOf) && Inv(s) && forall id :: hashOf(id) != 0
    ensures Isolated(Step(s, op, hashOf), hashOf) <==> !Mixes(s, op)
  {
    hide Isolated, Inv, Prelude, SingleService, TearDown, EnqueueContext, MergeSri;
    match op
    case Prepare(w) => PreludeIsolated(s, w, hashOf);
    case Service(push, w) => ServiceIsolatedIff(s, push, w, hashOf);
    case TimerTick => QuietIsolated(s, hashOf);
    case NetworkSettingsChanged => QuietIsolated(s, hashOf);
    case Stop(w) => TearDownIsolated(s, w, hashOf);
  }

  lemma InitialIsolated(hashOf: string -> nat)
    ensures Isolated(Initial(), hashOf)
  {
  }

  /** Whatever force_transmit is, as long as no push mixes every packet is of the one stream of its setup. */
  lemma {:induction false} RunIsolated(ops: seq<Op>, hashOf: string -> nat)
    requires forall id :: hashOf(id) != 0
    requires forall i :: 0 <= i < |ops| ==> !Mixes(Run(ops[..i], hashOf), ops[i])
    ensures Isolated(Run(ops, hashOf), hashOf)
  {
    hide Isolated, Inv, Mixes, Step;
    if ops == [] {
      InitialIsolated(hashOf);
    } else {
      var before := ops[..|ops| - 1];
      forall i | 0 <= i < |before| ensures !Mixes(Run(before[..i], hashOf), before[i]) {
        assert before[..i] == ops[..i];
      }
      RunIsolated(before, hashOf);
      RunKeepsInv(before, hashOf);
      StepIsolatedIff(Run(before, hashOf), ops[|ops| - 1], hashOf);
    }
  }

  /** A run is isolated throughout exactly when none of its pushes mixes. */
  lemma RunIsolatedIff(ops: seq<Op>, hashOf: string -> nat)
    requires forall id :: hashOf(id) != 0
    ensures (forall i :: 0 <= i <= |ops| ==> Isolated(Run(ops[..i], hashOf), hashOf)) <==>
            (forall i :: 0 <= i < |ops| ==> !Mixes(Run(ops[..i], hashOf), ops[i]))
  {
    hide Isolated, Inv, Mixes, Step, Run;
    if forall i :: 0 <= i <= |ops| ==> Isolated(Run(ops[..i], hashOf), hashOf) {
      forall i | 0 <= i < |ops| ensures !Mixes(Run(ops[..i], hashOf), ops[i]) {
        RunKeepsInv(ops[..i], hashOf);
        RunNext(ops, i, hashOf);
        StepIsolatedIff(Run(ops[..i], hashOf), ops[i], hashOf);
      }
    }
    if forall i :: 0 <= i < |ops| ==> !Mixes(Run(ops[..i], hashOf), ops[i]) {
      forall k | 0 <= k <= |ops| ensures Isolated(Run(ops[..k], hashOf), hashOf) {
        forall i | 0 <= i < k ensures !Mixes(Run(ops[..k][..i], hashOf), ops[..k][i]) {
          assert ops[..k][..i] == ops[..i];
        }
        RunIsolated(ops[..k], hashOf);
      }
    }
  }

  /** Such a run exists: with force_transmit two pushes of two streams share a packet. */
  lemma ForceMixesStreams(hashOf: string -> nat) returns (ops: seq<Op>)
    requires forall id :: hashOf(id) != 0
    ensures |ops| == 3 && Mixes(Run(ops[..2], hashOf), ops[2])
    ensures !Isolated(Run(ops, hashOf), hashOf)
  {
    var w := World(0, true, true, true, true);
    var a := Service(Push("a", true, true, 4, 0, true, false), w);
    var b := Service(Push("b", true, true, 4, 1, false, false), w);
    ops := [] + [Prepare(w)] + [a] + [b];
    RunSnoc([], Prepare(w), hashOf);
    RunSnoc([] + [Prepare(w)], a, hashOf);
    RunSnoc([] + [Prepare(w)] + [a], b, hashOf);
    assert ops[..2] == [] + [Prepare(w)] + [a];
    var s := Run(ops[..2], hashOf);
    assert "a"[0] != "b"[0];
    assert Mixes(s, b);
    RunKeepsInv(ops[..2], hashOf);
    assert s.carried == {Origin("a", 1)};
    assert Isolated(s, hashOf);
    hide Step, Isolated, Mixes;
    StepIsolatedIff(s, b, hashOf);
  }
}
