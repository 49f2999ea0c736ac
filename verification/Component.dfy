/** The component's own methods, field by field, and any sequence of calls to them: every run of the
    component is a run of Lifecycle and keeps what is proved there. */
module Component {
  import opened Lifecycle
  import opened Isolation
  import opened ContextOrder

  class SinkVITA49Component {
    /** The fields the lifecycle reads and writes; the ghost fields follow what becomes of samples and packets. */
    const hashOf: string -> nat
    var hash: nat
    var streamID: string
    ghost var names: seq<string>
    var attach: bool
    var transmitThread: bool
    var contextThread: bool
    var runThread: bool
    var waitingForSRI: bool
    var sriStream: string
    var shouldUpdateStream: bool
    var createMem: bool
    var samplesPerPacket: nat
    ghost var carried: set<Origin>
    ghost var ranWhenConfigured: bool
    ghost var queue: seq<Item>

    ghost function State(): Life
      reads this
    {
      Life(hash, streamID, names, attach, transmitThread, contextThread, runThread, waitingForSRI,
           sriStream, shouldUpdateStream, createMem, samplesPerPacket, carried, ranWhenConfigured, queue)
    }

    constructor (hashOf: string -> nat)
      ensures State() == Initial() && this.hashOf == hashOf
    {
      this.hashOf := hashOf;
      hash, streamID, names := 0, "", [];
      attach, transmitThread, contextThread, runThread := false, false, false, false;
      waitingForSRI, sriStream, shouldUpdateStream, createMem := true, "DEFAULT_SINKVITA49_STREAMID", false, true;
      samplesPerPacket, carried, ranWhenConfigured, queue := 0, {}, false, [];
    }

    method DestroyTxThread()
      modifies this
      ensures State() == DestroyTx(old(State()))
      ensures !transmitThread && !contextThread && !attach
      ensures runThread == (old(runThread) && !old(transmitThread) && !old(contextThread))
    {
      if transmitThread {
        runThread := false;
        transmitThread := false;
      }
      if contextThread {
        runThread := false;
        contextThread := false;
      }
      attach := false;
    }

    method LaunchTxThread(w: World) returns (launched: bool)
      modifies this
      ensures State() == LaunchTx(old(State()), w) && launched == w.launches
    {
      DestroyTxThread();
      if !w.launches {
        return false;
      }
      runThread := true;
      if w.timer {
        contextThread := true;
      }
      transmitThread := true;
      return true;
    }

    method TearDownOutputStream(w: World)
      modifies this
      ensures State() == TearDown(old(State()), w)
    {
      hide DestroyTx;
      if w.removable {
        hash, streamID := 0, "";
        DestroyTxThread();
        ghost var destroyed := State();
        samplesPerPacket, carried, waitingForSRI := 0, {}, true;
        assert State() == Reset(destroyed);
      }
    }

    method SetupOutputStream(stream: string)
      modifies this
      ensures State() == Setup(old(State()), stream, hashOf)
    {
      hash, streamID, names, ranWhenConfigured := hashOf(stream), stream, names + [stream], false;
      attach := true;
    }

    /** serviceFunction up to the polling of the ports. */
    method PrepareService(w: World)
      modifies this
      ensures State() == Prelude(old(State()), w)
    {
      hide DestroyTx, LaunchTx;
      if createMem {
        DestroyTxThread();
        createMem := false;
      }
      if shouldUpdateStream {
        DestroyTxThread();
        shouldUpdateStream := false;
      }
      if !transmitThread && (w.connections > 0 || w.force) {
        var launched := LaunchTxThread(w);
      }
    }

    method ReadyToProcessPacket(stream: string, w: World) returns (ready: bool)
      modifies this
      ensures (State(), ready) == Ready(old(State()), stream, w)
    {
      if w.force {
        return true;
      }
      var hasActiveStream := hash != 0;
      if w.connections == 0 {
        if hasActiveStream {
          TearDownOutputStream(w);
        }
        return false;
      }
      if hasActiveStream && streamID != stream {
        return false;
      }
      return true;
    }

    method CreateIFContextPacket()
      modifies `queue
      ensures State() == EnqueueContext(old(State()))
    {
      if runThread {
        if streamID != sriStream {
          return;
        }
        queue := queue + [Context(|names|, hash)];
      }
    }

    /** The SRI part of singleService: a merge that reports a change sets the packet size and puts out a
        context packet. */
    method HandleSri(push: Push)
      modifies this
      ensures State() == MergeSri(old(State()), push)
    {
      hide EnqueueContext;
      if attach && (push.sriChanged || waitingForSRI) {
        var updateSRI := push.differs || sriStream != push.stream;
        sriStream, waitingForSRI := push.stream, false;
        ghost var merged := State();
        if updateSRI {
          ranWhenConfigured := if samplesPerPacket == 0 then runThread else ranWhenConfigured;
          samplesPerPacket := push.samplesPerPacket;
          assert EnqueueContext(State()) == Configure(merged, push.samplesPerPacket);
          CreateIFContextPacket();
        }
      }
    }

    /** The packet loop, by the number of packets it completes. */
    method PushPackets(push: Push)
      modifies `queue, `carried
      ensures queue == old(queue) + DataItems(old(State()), push, push.completed)
      ensures carried == if push.completed == 0 then old(carried) else {}
    {
      ghost var s, sent: seq<Item> := State(), [];
      var n := 0;
      while n < push.completed
        invariant 0 <= n <= push.completed
        invariant queue == s.queue + sent && sent == DataItems(s, push, n)
        invariant carried == if n == 0 then s.carried else {}
      {
        ghost var item := Data(|names|, hash, carried + {Origin(push.stream, |names|)}, ranWhenConfigured);
        NextItem(s, push, n, item);
        queue := queue + [item];
        sent := sent + [item];
        carried := {};
        n := n + 1;
      }
    }

    /** The loop and the remainder. */
    method PushData(push: Push)
      modifies `queue, `carried
      ensures State() == Emit(old(State()), push)
    {
      hide DataItems;
      PushPackets(push);
      if push.remains {
        carried := carried + {Origin(push.stream, |names|)};
      }
    }

    method SingleServiceCall(push: Push, w: World)
      modifies this
      ensures State() == SingleService(old(State()), push, w, hashOf)
    {
      hide TearDown, Setup, MergeSri, Emit;
      var ready := ReadyToProcessPacket(push.stream, w);
      if !ready {
        return;
      }
      if hash == 0 {
        SetupOutputStream(push.stream);
      }
      HandleSri(push);
      if samplesPerPacket < 1 {
        return;
      }
      PushData(push);
      if push.eos {
        assert carried == {} ==> queue + [] == queue;
        if carried != {} {
          queue := queue + [Data(|names|, hash, carried, ranWhenConfigured)];
        }
        TearDownOutputStream(w);
      }
    }

    /** One turn of the timer thread. */
    method TimerTurn()
      modifies `queue
      ensures State() == Step(old(State()), TimerTick, hashOf)
    {
      hide EnqueueContext;
      if contextThread && !waitingForSRI {
        CreateIFContextPacket();
      }
    }

    /** One call from outside or one turn of a thread. */
    method Call(op: Op)
      modifies this
      ensures State() == Step(old(State()), op, hashOf)
    {
      hide Prelude, SingleService, TearDown, EnqueueContext;
      match op
      case Prepare(w) => PrepareService(w);
      case Service(push, w) => SingleServiceCall(push, w);
      case TimerTick => TimerTurn();
      case NetworkSettingsChanged => shouldUpdateStream := true;
      case Stop(w) => TearDownOutputStream(w);
    }

    /** Any sequence of calls on a new component: the lifecycle invariant holds at its end; no packet mixes
        streams and none lacks its context, unless one of the pushes was such a push. */
    method Execute(ops: seq<Op>)
      requires State() == Initial() && forall id :: hashOf(id) != 0
      modifies this
      ensures State() == Run(ops, hashOf) && Inv(State())
      ensures (forall i :: 0 <= i < |ops| ==> !Mixes(Run(ops[..i], hashOf), ops[i])) ==> Isolated(State(), hashOf)
      ensures (forall i :: 0 <= i < |ops| ==> !Uncovers(Run(ops[..i], hashOf), ops[i])) ==> ContextFirst(State())
    {
      hide Step, Inv, Isolated, ContextFirst, Mixes, Uncovers;
      var i := 0;
      while i < |ops|
        invariant 0 <= i <= |ops| && State() == Run(ops[..i], hashOf)
      {
        RunNext(ops, i, hashOf);
        Call(ops[i]);
        i := i + 1;
      }
      assert ops[..i] == ops;
      RunKeepsInv(ops, hashOf);
      if forall j :: 0 <= j < |ops| ==> !Mixes(Run(ops[..j], hashOf), ops[j]) { RunIsolated(ops, hashOf); }
      if forall j :: 0 <= j < |ops| ==> !Uncovers(Run(ops[..j], hashOf), ops[j]) { RunContextFirst(ops, hashOf); }
    }
  }

  lemma NextItem(s: Life, push: Push, n: nat, item: Item)
    requires item == Data(s.Epoch(), s.hash, (if n == 0 then s.carried else {}) + {Origin(push.stream, s.Epoch())},
                          s.ranWhenConfigured)
    ensures DataItems(s, push, n + 1) == DataItems(s, push, n) + [item]
  {
    assert {} + {Origin(push.stream, s.Epoch())} == {Origin(push.stream, s.Epoch())};
  }
}
