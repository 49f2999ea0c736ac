/** Attachment: an active stream is attached until its threads are refreshed, and merges no SRI afterwards. */
module Attachment {
  import opened Lifecycle

  /** The step that destroys the threads while the stream goes on: for memory, for new network settings, or
      because launching destroys first. */
  predicate Refreshes(s: Life, op: Op) {
    op.Prepare? && (s.createMem || s.shouldUpdateStream ||
                    (!s.transmitThread && (op.world.connections > 0 || op.world.force)))
  }

  /** What one step does to a stream and its attachment; without attachment no SRI is merged. */
  ghost predicate Follows(s: Life, t: Life, refreshed: bool) {
    && (t.Epoch() == s.Epoch() || t.Epoch() == s.Epoch() + 1)
    && (t.Epoch() > s.Epoch() ==> !s.Active() && (t.Active() ==> t.attach))
    && (t.Epoch() == s.Epoch() && t.Active() ==> s.Active() && t.attach == (s.attach && !refreshed))
    && (t.Epoch() == s.Epoch() && t.Active() && !s.attach ==> Unmerged(s, t))
  }

  predicate Unmerged(s: Life, t: Life) { t.samplesPerPacket == s.samplesPerPacket && t.sriStream == s.sriStream }

  lemma PreludeFollows(s: Life, w: World)
    ensures Follows(s, Prelude(s, w), Refreshes(s, Prepare(w)))
  {
  }

  lemma TearDownFollows(s: Life, w: World)
    ensures Follows(s, TearDown(s, w), false)
  {
  }

  lemma MergeFields(s: Life, push: Push)
    ensures var c := MergeSri(s, push); c.names == s.names && c.hash == s.hash && c.attach == s.attach
    ensures !s.attach ==> MergeSri(s, push) == s
  {
  }

  /** Between setup and teardown nothing but the packets changes. */
  ghost predicate SameStream(s: Life, t: Life) {
    t.names == s.names && (t.Active() ==> t.hash == s.hash && t.attach == s.attach && Unmerged(s, t))
  }

  lemma EmitFields(c: Life, push: Push)
    ensures SameStream(c, Emit(c, push))
  {
    hide DataItems, CarriedAfter;
  }

  lemma FlushFields(c: Life)
    ensures SameStream(c, FlushRest(c))
  {
    hide LastItem;
  }

  lemma TearDownFields(c: Life, w: World)
    ensures SameStream(c, TearDown(c, w))
    ensures !w.removable ==> TearDown(c, w) == c
    ensures w.removable ==> !TearDown(c, w).Active()
  {
  }

  lemma DeliverFields(c: Life, push: Push, w: World)
    ensures SameStream(c, Deliver(c, push, w))
  {
    EmitFields(c, push);
    FlushFields(Emit(c, push));
    TearDownFields(FlushRest(Emit(c, push)), w);
    hide Emit, FlushRest, TearDown;
  }

  lemma SetupFields(s: Life, stream: string, hashOf: string -> nat)
    ensures var b := Setup(s, stream, hashOf); b.Epoch() == s.Epoch() + 1 && b.attach && b.hash == hashOf(stream)
  {
  }

  lemma ServiceFollows(s: Life, push: Push, w: World, hashOf: string -> nat)
    ensures Follows(s, SingleService(s, push, w, hashOf), false)
  {
    TearDownFollows(s, w);
    SetupFields(s, push.stream, hashOf);
    var b := if s.Active() then s else Setup(s, push.stream, hashOf);
    MergeFields(b, push);
    DeliverFields(MergeSri(b, push), push, w);
    hide TearDown, Setup, MergeSri, Deliver;
  }

  lemma QuietFollows(s: Life)
    ensures Follows(s, EnqueueContext(s), false) && Follows(s, s.(shouldUpdateStream := true), false)
    ensures Follows(s, s, false)
  {
  }

  lemma StepFollows(s: Life, op: Op, hashOf: string -> nat)
    ensures Follows(s, Step(s, op, hashOf), Refreshes(s, op))
  {
    hide Prelude, TearDown, EnqueueContext, SingleService, Follows;
    QuietFollows(s);
    match op
    case Prepare(w) => PreludeFollows(s, w);
    case Service(push, w) => ServiceFollows(s, push, w, hashOf);
    case Stop(w) => TearDownFollows(s, w);
    case TimerTick =>
    case NetworkSettingsChanged =>
  }

  /** In every run, an active stream was set up by one step k, and it is attached if and only if no step since
      then refreshed the threads. */
  lemma {:induction false} AttachedIff(ops: seq<Op>, hashOf: string -> nat) returns (k: nat)
    requires Run(ops, hashOf).Active()
    ensures k < |ops| && Run(ops[..k], hashOf).Epoch() + 1 == Run(ops[..k + 1], hashOf).Epoch()
    ensures Run(ops[..k + 1], hashOf).Epoch() == Run(ops, hashOf).Epoch()
    ensures Run(ops, hashOf).attach <==> forall i :: k < i < |ops| ==> !Refreshes(Run(ops[..i], hashOf), ops[i])
  {
    hide Step, Refreshes;
    var last := |ops| - 1;
    var before := ops[..last];
    var s := Run(before, hashOf);
    assert ops[..last + 1] == ops;
    assert Run(ops, hashOf) == Step(s, ops[last], hashOf);
    hide Run;
    StepFollows(s, ops[last], hashOf);
    if Run(ops, hashOf).Epoch() > s.Epoch() {
      k := last;
    } else {
      k := AttachedIff(before, hashOf);
      forall i | 0 <= i < last ensures before[..i] == ops[..i] && before[i] == ops[i] {}
      assert before[..k + 1] == ops[..k + 1];
    }
  }

  function Continue(s: Life, ops: seq<Op>, hashOf: string -> nat): Life {
    if ops == [] then s else Step(Continue(s, ops[..|ops| - 1], hashOf), ops[|ops| - 1], hashOf)
  }

  /** A stream that lost its attachment stays without it, and its SRI and packet size stay what they were,
      until another stream is set up. */
  lemma {:induction false} DetachedStreamIsFrozen(s: Life, ops: seq<Op>, hashOf: string -> nat)
    requires s.Active() && !s.attach
    ensures var t := Continue(s, ops, hashOf);
            && t.Epoch() >= s.Epoch()
            && (t.Epoch() == s.Epoch() && t.Active() ==>
                  !t.attach && Unmerged(s, t))
  {
    if ops != [] {
      hide Step;
      var before := Continue(s, ops[..|ops| - 1], hashOf);
      DetachedStreamIsFrozen(s, ops[..|ops| - 1], hashOf);
      StepFollows(before, ops[|ops| - 1], hashOf);
    }
  }

  lemma Served(s: Life, a: Op, hashOf: string -> nat)
    requires a == Service(Push("a", true, true, 4, 1, false, false), World(1, false, true, false, true))
    requires s == Step(Prelude(Initial(), a.world), a, hashOf) && hashOf("a") != 0
    ensures s.Active() && s.transmitThread && !s.createMem
  {
    hide DataItems, CarriedAfter;
  }

  /** Such a state is reached by changing the network settings while a stream is served. */
  lemma RefreshDetaches(hashOf: string -> nat) returns (ops: seq<Op>)
    requires forall id :: hashOf(id) != 0
    ensures Run(ops, hashOf).Active() && !Run(ops, hashOf).attach && Run(ops, hashOf).transmitThread
  {
    var w := World(1, false, true, false, true);
    var a := Service(Push("a", true, true, 4, 1, false, false), w);
    var r := [] + [Prepare(w)] + [a];
    ops := r + [NetworkSettingsChanged] + [Prepare(w)];
    RunSnoc([], Prepare(w), hashOf);
    RunSnoc([] + [Prepare(w)], a, hashOf);
    RunSnoc(r, NetworkSettingsChanged, hashOf);
    RunSnoc(r + [NetworkSettingsChanged], Prepare(w), hashOf);
    Served(Run(r, hashOf), a, hashOf);
    hide SingleService;
  }
}
