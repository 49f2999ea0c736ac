/** Stream lifecycle: which stream is active, which threads exist, when context and data packets are
    enqueued. Data is followed by origin: every sample belongs to a stream and to the setup under
    which it was accepted. */
module Lifecycle {

  /** Where samples come from: the stream they were pushed on and the number of the setup in force. */
  datatype Origin = Origin(stream: string, epoch: nat)

  /** A packet in the queue; a data packet knows the origins of its samples and whether the transmit
      thread was running when its stream was first configured. */
  datatype Item =
    | Context(epoch: nat, hash: nat)
    | Data(epoch: nat, hash: nat, origins: set<Origin>, ranWhenConfigured: bool)

  /** names lists the streams set up so far; the last setup is the one in force. */
  datatype Life = Life(
    hash: nat, streamID: string, names: seq<string>,
    attach: bool, transmitThread: bool, contextThread: bool, runThread: bool,
    waitingForSRI: bool, sriStream: string, shouldUpdateStream: bool, createMem: bool,
    samplesPerPacket: nat, carried: set<Origin>, ranWhenConfigured: bool,
    queue: seq<Item>)
  {
    predicate Active() { hash != 0 }
    function Epoch(): nat { |names| }
    function Here(): Origin { Origin(streamID, Epoch()) }
  }

  /** A push: its stream, whether its SRI changed and whether that SRI differs from the current one in
      more than the stream id, what createPayload then computes, how many packets its data completes
      and whether bytes remain, and end of stream. */
  datatype Push = Push(stream: string, sriChanged: bool, differs: bool, samplesPerPacket: nat,
                       completed: nat, remains: bool, eos: bool)

  /** What the outside decides during one step. removable is false when removeStream throws. */
  datatype World = World(connections: nat, force: bool, launches: bool, timer: bool, removable: bool)

  /** One step of the component: what serviceFunction does before it polls the ports, one call of
      singleService with a push in hand, a turn of the timer thread, a property change, or stop. */
  datatype Op =
    | Prepare(world: World)
    | Service(push: Push, world: World)
    | TimerTick
    | NetworkSettingsChanged
    | Stop(world: World)

  // ---- the functions of the component, on values ----

  function DestroyTx(s: Life): Life {
    s.(runThread := s.runThread && !s.transmitThread && !s.contextThread,
       transmitThread := false, contextThread := false, attach := false)
  }

  function LaunchTx(s: Life, w: World): Life {
    var d := DestroyTx(s);
    if w.launches then d.(runThread := true, contextThread := w.timer, transmitThread := true) else d
  }

  /** The part of initialize_values that concerns the lifecycle. */
  function Reset(s: Life): Life { s.(samplesPerPacket := 0, carried := {}, waitingForSRI := true) }

  function TearDown(s: Life, w: World): Life {
    if w.removable then Reset(DestroyTx(s.(hash := 0, streamID := ""))) else s
  }

  function Setup(s: Life, stream: string, hashOf: string -> nat): Life {
    s.(hash := hashOf(stream), streamID := stream, names := s.names + [stream],
       attach := true, ranWhenConfigured := false)
  }

  /** serviceFunction before it polls the ports. */
  function Prelude(s: Life, w: World): Life {
    var a := if s.createMem then DestroyTx(s).(createMem := false) else s;
    var b := if a.shouldUpdateStream then DestroyTx(a).(shouldUpdateStream := false) else a;
    if !b.transmitThread && (w.connections > 0 || w.force) then LaunchTx(b, w) else b
  }

  function Ready(s: Life, stream: string, w: World): (Life, bool) {
    if w.force then (s, true)
    else if w.connections == 0 then (if s.Active() then TearDown(s, w) else s, false)
    else (s, !(s.Active() && s.streamID != stream))
  }

  /** createIFContextPacket: nothing without a transmit thread, or when the current SRI is another stream's. */
  function EnqueueContext(s: Life): Life {
    if s.runThread && s.streamID == s.sriStream then
      s.(queue := s.queue + [Context(s.Epoch(), s.hash)])
    else
      s
  }

  /** createPayload and the context packet after a reported change. */
  function Configure(s: Life, samplesPerPacket: nat): Life {
    EnqueueContext(s.(ranWhenConfigured := if s.samplesPerPacket == 0 then s.runThread else s.ranWhenConfigured,
                      samplesPerPacket := samplesPerPacket))
  }

  /** The merge reports a change when anything compareSRI looks at differs, the stream id among it. */
  predicate Reported(s: Life, push: Push) { push.differs || s.sriStream != push.stream }

  predicate MergeDue(s: Life, push: Push) { s.attach && (push.sriChanged || s.waitingForSRI) }

  function MergeSri(s: Life, push: Push): Life {
    var m := s.(sriStream := push.stream, waitingForSRI := false);
    if !MergeDue(s, push) then s
    else if Reported(s, push) then Configure(m, push.samplesPerPacket)
    else m
  }

  /** Packets a push completes: the first one starts with what was carried. */
  function DataItems(s: Life, push: Push, n: nat): seq<Item> {
    if n == 0 then []
    else
      var here := {Origin(push.stream, s.Epoch())};
      DataItems(s, push, n - 1) +
      [Data(s.Epoch(), s.hash, if n == 1 then s.carried + here else here, s.ranWhenConfigured)]
  }

  /** What is carried after a push. */
  function CarriedAfter(s: Life, push: Push): set<Origin> {
    var before := if push.completed == 0 then s.carried else {};
    if push.remains then before + {Origin(push.stream, s.Epoch())} else before
  }

  function Emit(s: Life, push: Push): Life {
    s.(queue := s.queue + DataItems(s, push, push.completed), carried := CarriedAfter(s, push))
  }

  /** The short last packet, if anything is carried. */
  function LastItem(s: Life): seq<Item> {
    if s.carried == {} then [] else [Data(s.Epoch(), s.hash, s.carried, s.ranWhenConfigured)]
  }

  function FlushRest(s: Life): Life { s.(queue := s.queue + LastItem(s)) }

  /** singleService after the merge. */
  function Deliver(c: Life, push: Push, w: World): Life {
    if c.samplesPerPacket < 1 then c
    else if push.eos then TearDown(FlushRest(Emit(c, push)), w)
    else Emit(c, push)
  }

  function SingleService(s: Life, push: Push, w: World, hashOf: string -> nat): Life {
    var (a, go) := Ready(s, push.stream, w);
    if !go then a
    else Deliver(MergeSri(if a.Active() then a else Setup(a, push.stream, hashOf), push), push, w)
  }

  function Step(s: Life, op: Op, hashOf: string -> nat): Life {
    match op
    case Prepare(w) => Prelude(s, w)
    case Service(push, w) => SingleService(s, push, w, hashOf)
    case TimerTick => if s.contextThread && !s.waitingForSRI then EnqueueContext(s) else s
    case NetworkSettingsChanged => s.(shouldUpdateStream := true)
    case Stop(w) => TearDown(s, w)
  }

  function Initial(): Life {
    Life(0, "", [], false, false, false, false, true, "DEFAULT_SINKVITA49_STREAMID", false, true, 0, {}, false, [])
  }

  function Run(ops: seq<Op>, hashOf: string -> nat): Life {
    if ops == [] then Initial() else Step(Run(ops[..|ops| - 1], hashOf), ops[|ops| - 1], hashOf)
  }

  lemma RunNext(ops: seq<Op>, i: nat, hashOf: string -> nat)
    requires i < |ops|
    ensures Run(ops[..i + 1], hashOf) == Step(Run(ops[..i], hashOf), ops[i], hashOf)
  {
    hide Step;
    assert ops[..i + 1][..i] == ops[..i];
  }

  /** A run one step at a time, for concrete runs. */
  lemma RunSnoc(ops: seq<Op>, op: Op, hashOf: string -> nat)
    ensures Run(ops + [op], hashOf) == Step(Run(ops, hashOf), op, hashOf)
  {
    hide Step;
    assert (ops + [op])[..|ops|] == ops;
  }

  /** A push of another stream than the active one, let in by force_transmit. */
  predicate Foreign(s: Life, op: Op) {
    op.Service? && op.world.force && s.Active() && s.streamID != op.push.stream
  }

  // ---- the lifecycle invariant ----

  /** Attachment implies an active stream; without a stream nothing is carried, configured or merged;
      a context thread implies a transmit thread, and there is one exactly while runThread is set. */
  ghost predicate Inv(s: Life) {
    && (s.attach ==> s.Active())
    && (!s.Active() ==> s.carried == {} && s.samplesPerPacket == 0 && s.waitingForSRI)
    && (s.contextThread ==> s.transmitThread)
    && (s.transmitThread <==> s.runThread)
  }

  lemma ThreadsKeepInv(s: Life, w: World)
    requires Inv(s)
    ensures Inv(DestroyTx(s)) && Inv(LaunchTx(s, w))
    ensures Inv(DestroyTx(s).(createMem := false)) && Inv(DestroyTx(s).(shouldUpdateStream := false))
  {
  }

  lemma PreludeKeepsInv(s: Life, w: World)
    requires Inv(s)
    ensures Inv(Prelude(s, w))
  {
    hide Inv, DestroyTx, LaunchTx;
    ThreadsKeepInv(s, w);
    var a := if s.createMem then DestroyTx(s).(createMem := false) else s;
    ThreadsKeepInv(a, w);
    var b := if a.shouldUpdateStream then DestroyTx(a).(shouldUpdateStream := false) else a;
    ThreadsKeepInv(b, w);
  }

  lemma TearDownKeepsInv(s: Life, w: World)
    requires Inv(s)
    ensures Inv(TearDown(s, w))
  {
  }

  lemma EmitKeepsInv(c: Life, push: Push)
    requires Inv(c) && c.Active()
    ensures Inv(Emit(c, push)) && Emit(c, push).Active()
  {
    hide DataItems, CarriedAfter;
  }

  lemma FlushKeepsInv(c: Life)
    requires Inv(c) && c.Active()
    ensures Inv(FlushRest(c))
  {
    hide LastItem;
  }

  lemma DeliverKeepsInv(c: Life, push: Push, w: World)
    requires Inv(c) && c.Active()
    ensures Inv(Deliver(c, push, w))
  {
    EmitKeepsInv(c, push);
    FlushKeepsInv(Emit(c, push));
    TearDownKeepsInv(FlushRest(Emit(c, push)), w);
    hide Inv, Emit, FlushRest, TearDown;
  }

  lemma SetupKeepsInv(s: Life, push: Push, hashOf: string -> nat)
    requires Inv(s) && hashOf(push.stream) != 0
    ensures var b := if s.Active() then s else Setup(s, push.stream, hashOf);
            Inv(b) && Inv(MergeSri(b, push)) && MergeSri(b, push).Active()
  {
  }

  lemma ServiceKeepsInv(s: Life, push: Push, w: World, hashOf: string -> nat)
    requires Inv(s) && hashOf(push.stream) != 0
    ensures Inv(SingleService(s, push, w, hashOf))
  {
    hide Inv, TearDown, Setup, MergeSri, Deliver;
    TearDownKeepsInv(s, w);
    SetupKeepsInv(s, push, hashOf);
    DeliverKeepsInv(MergeSri(if s.Active() then s else Setup(s, push.stream, hashOf), push), push, w);
  }

  lemma StepKeepsInv(s: Life, op: Op, hashOf: string -> nat)
    requires Inv(s) && forall id :: hashOf(id) != 0
    ensures Inv(Step(s, op, hashOf))
  {
    hide Prelude, SingleService, TearDown;
    match op
    case Prepare(w) => PreludeKeepsInv(s, w);
    case Service(push, w) => ServiceKeepsInv(s, push, w, hashOf);
    case Stop(w) => TearDownKeepsInv(s, w);
    case _ =>
  }

  /** The lifecycle invariant holds after every run. */
  lemma {:induction false} RunKeepsInv(ops: seq<Op>, hashOf: string -> nat)
    requires forall id :: hashOf(id) != 0
    ensures Inv(Run(ops, hashOf))
  {
    if ops != [] {
      RunKeepsInv(ops[..|ops| - 1], hashOf);
      hide Step, Inv;
      StepKeepsInv(Run(ops[..|ops| - 1], hashOf), ops[|ops| - 1], hashOf);
    }
  }

  /** What a completed packet looks like. */
  lemma {:induction false} DataItemsAre(s: Life, push: Push, n: nat)
    ensures |DataItems(s, push, n)| == n
    ensures forall i :: 0 <= i < n ==>
              var here := {Origin(push.stream, s.Epoch())};
              DataItems(s, push, n)[i] ==
              Data(s.Epoch(), s.hash, if i == 0 then s.carried + here else here, s.ranWhenConfigured)
  {
    if n > 0 { DataItemsAre(s, push, n - 1); }
  }
}
