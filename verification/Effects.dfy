/** What each step of the component does, by what can be seen of it: packets put out, streams and threads started
    and ended, samples kept. */
module Effects {
  import opened Lifecycle

  function DataCount(queue: seq<Item>): nat {
    if queue == [] then 0 else DataCount(queue[..|queue| - 1]) + (if queue[|queue| - 1].Data? then 1 else 0)
  }

  function ContextCount(queue: seq<Item>): nat {
    if queue == [] then 0 else ContextCount(queue[..|queue| - 1]) + (if queue[|queue| - 1].Context? then 1 else 0)
  }

  lemma {:induction false} CountAppend(a: seq<Item>, b: seq<Item>)
    ensures DataCount(a + b) == DataCount(a) + DataCount(b)
    ensures ContextCount(a + b) == ContextCount(a) + ContextCount(b)
  {
    if b == [] {
      assert a + b == a;
    } else {
      var last := |b| - 1;
      CountAppend(a, b[..last]);
      assert (a + b)[..|a + b| - 1] == a + b[..last];
    }
  }

  lemma {:induction false} CountData(items: seq<Item>)
    requires forall i :: 0 <= i < |items| ==> items[i].Data?
    ensures DataCount(items) == |items| && ContextCount(items) == 0
  {
    if items != [] { CountData(items[..|items| - 1]); }
  }

  lemma CountOne(item: Item)
    ensures DataCount([item]) == (if item.Data? then 1 else 0) && ContextCount([item]) == if item.Context? then 1 else 0
  {
    assert [item][..0] == [];
  }

  // ---- threads ----

  predicate NoThreads(s: Life) { !s.transmitThread && !s.contextThread && !s.runThread && !s.attach }

  /** The stream, its samples and its packets, which threads do not touch. */
  predicate SameStream(s: Life, t: Life) {
    && t.hash == s.hash && t.streamID == s.streamID && t.names == s.names && t.queue == s.queue
    && t.carried == s.carried && t.samplesPerPacket == s.samplesPerPacket
    && t.waitingForSRI == s.waitingForSRI && t.sriStream == s.sriStream && t.ranWhenConfigured == s.ranWhenConfigured
  }

  /** A context thread only with a transmit thread, and that one exactly while runThread is set. */
  predicate ThreadsAgree(s: Life) { (s.contextThread ==> s.transmitThread) && (s.transmitThread <==> s.runThread) }

  lemma InvThreads(s: Life)
    requires Inv(s)
    ensures ThreadsAgree(s)
  {
  }

  lemma DestroyEffect(s: Life)
    requires ThreadsAgree(s)
    ensures NoThreads(DestroyTx(s)) && SameStream(s, DestroyTx(s))
    ensures DestroyTx(s).createMem == s.createMem && DestroyTx(s).shouldUpdateStream == s.shouldUpdateStream
  {
  }

  lemma LaunchEffect(s: Life, w: World)
    requires ThreadsAgree(s)
    ensures var t := LaunchTx(s, w);
            && SameStream(s, t) && !t.attach
            && t.createMem == s.createMem && t.shouldUpdateStream == s.shouldUpdateStream
            && t.transmitThread == t.runThread == w.launches && t.contextThread == (w.launches && w.timer)
  {
  }

  predicate Refresh(s: Life) { s.createMem || s.shouldUpdateStream }

  predicate Wanted(w: World) { w.connections > 0 || w.force }

  /** Before the ports are polled: threads are renewed when memory or new settings ask for it, and started when there
      is a listener or force_transmit but none running; otherwise nothing happens. Streams go on. */
  lemma PrepareEffect(s: Life, w: World, hashOf: string -> nat)
    requires Inv(s)
    ensures var t := Step(s, Prepare(w), hashOf);
            && SameStream(s, t) && !t.createMem && !t.shouldUpdateStream
            && (!Refresh(s) && (s.transmitThread || !Wanted(w)) ==> t == s)
            && (Refresh(s) || (!s.transmitThread && Wanted(w)) ==>
                  && t.transmitThread == t.runThread == (Wanted(w) && w.launches)
                  && t.contextThread == (Wanted(w) && w.launches && w.timer) && !t.attach)
  {
    hide Inv, DestroyTx, LaunchTx;
    InvThreads(s);
    DestroyEffect(s);
    var a := if s.createMem then DestroyTx(s).(createMem := false) else s;
    DestroyEffect(a);
    var b := if a.shouldUpdateStream then DestroyTx(a).(shouldUpdateStream := false) else a;
    LaunchEffect(b, w);
  }

  /** A change of network settings only asks for a refresh. */
  lemma SettingsEffect(s: Life, hashOf: string -> nat)
    ensures var t := Step(s, NetworkSettingsChanged, hashOf);
            && Refresh(t) && SameStream(s, t) && t.shouldUpdateStream
            && t.(shouldUpdateStream := s.shouldUpdateStream) == s
  {
  }

  // ---- streams that end ----

  /** No stream, no threads, nothing carried, no packet size, an SRI awaited. */
  predicate Over(t: Life) {
    !t.Active() && t.streamID == "" && NoThreads(t) && t.carried == {} && t.samplesPerPacket == 0 && t.waitingForSRI
  }

  lemma TearDownEffect(s: Life, w: World)
    requires ThreadsAgree(s)
    ensures w.removable ==> Over(TearDown(s, w))
    ensures !w.removable ==> TearDown(s, w) == s
    ensures var t := TearDown(s, w); t.queue == s.queue && t.names == s.names && t.sriStream == s.sriStream
  {
    DestroyEffect(s.(hash := 0, streamID := ""));
  }

  /** Stopping the component ends the stream. */
  lemma StopEffect(s: Life, w: World, hashOf: string -> nat)
    requires Inv(s) && w.removable
    ensures Over(Step(s, Stop(w), hashOf)) && Step(s, Stop(w), hashOf).queue == s.queue
  {
    InvThreads(s);
    hide TearDown;
    TearDownEffect(s, w);
  }

  /** Without listeners and without force_transmit a push is dropped, and an active stream ends at once. */
  lemma NoListenersEffect(s: Life, push: Push, w: World, hashOf: string -> nat)
    requires Inv(s) && !w.force && w.connections == 0
    ensures var t := Step(s, Service(push, w), hashOf);
            && t.queue == s.queue && t.names == s.names
            && (s.Active() && w.removable ==> Over(t))
            && (!s.Active() || !w.removable ==> t == s)
  {
    InvThreads(s);
    hide TearDown;
    TearDownEffect(s, w);
  }

  /** A push of another stream than the active one is dropped. */
  lemma OtherStreamEffect(s: Life, push: Push, w: World, hashOf: string -> nat)
    requires !w.force && w.connections > 0 && s.Active() && s.streamID != push.stream
    ensures Step(s, Service(push, w), hashOf) == s
  {
  }

  // ---- pushes that are served ----

  /** The push is taken: forced, or with a listener and of the active stream if there is one. */
  predicate Served(s: Life, push: Push, w: World) {
    w.force || (w.connections > 0 && (s.Active() ==> s.streamID == push.stream))
  }

  /** Its SRI is merged: the first push of a stream, or an attached stream's changed or awaited one. */
  predicate Due(s: Life, push: Push) { !s.Active() || (s.attach && (push.sriChanged || s.waitingForSRI)) }

  /** And reported: another stream's, or different in something else. */
  predicate Changed(s: Life, push: Push) { push.differs || s.sriStream != push.stream }

  /** The packet size the push is cut with. */
  function SizeFor(s: Life, push: Push): nat {
    if Due(s, push) && Changed(s, push) then push.samplesPerPacket else s.samplesPerPacket
  }

  /** The number of data packets the push puts out: those it completes, and at end of stream one for what remains. */
  function PacketsOut(s: Life, push: Push): nat {
    if SizeFor(s, push) < 1 then 0
    else push.completed + if push.eos && (push.remains || (push.completed == 0 && s.carried != {})) then 1 else 0
  }

  /** And of context packets: one for a reported SRI of the active stream, while the transmit thread runs. */
  function ContextsOut(s: Life, push: Push): nat {
    if Due(s, push) && Changed(s, push) && s.runThread && (s.Active() ==> s.streamID == push.stream) then 1 else 0
  }

  predicate EndsStream(s: Life, push: Push, w: World) { SizeFor(s, push) >= 1 && push.eos && w.removable }

  /** The state once the stream is there and its SRI merged. */
  ghost predicate Begun(s: Life, push: Push, hash: nat, c: Life) {
    && c.names == (if s.Active() then s.names else s.names + [push.stream])
    && c.streamID == (if s.Active() then s.streamID else push.stream) && c.hash == (if s.Active() then s.hash else hash)
    && c.samplesPerPacket == SizeFor(s, push) && c.carried == s.carried
    && c.waitingForSRI == (s.waitingForSRI && !Due(s, push)) && c.attach == (s.attach || !s.Active())
    && c.sriStream == (if Due(s, push) then push.stream else s.sriStream)
    && c.transmitThread == s.transmitThread && c.contextThread == s.contextThread && c.runThread == s.runThread
    && DataCount(c.queue) == DataCount(s.queue)
    && ContextCount(c.queue) == ContextCount(s.queue) + ContextsOut(s, push)
  }

  lemma EnqueueEffect(s: Life)
    ensures var t := EnqueueContext(s);
            && t == s.(queue := t.queue) && DataCount(t.queue) == DataCount(s.queue)
            && ContextCount(t.queue) ==
               ContextCount(s.queue) + (if s.runThread && s.streamID == s.sriStream then 1 else 0)
  {
    CountOne(Context(s.Epoch(), s.hash));
    CountAppend(s.queue, [Context(s.Epoch(), s.hash)]);
    hide DataCount, ContextCount;
  }

  lemma MergeEffect(b: Life, push: Push)
    ensures var c, due := MergeSri(b, push), b.attach && (push.sriChanged || b.waitingForSRI);
            var reported := due && (push.differs || b.sriStream != push.stream);
            && c.names == b.names && c.streamID == b.streamID && c.hash == b.hash && c.carried == b.carried
            && c.samplesPerPacket == (if reported then push.samplesPerPacket else b.samplesPerPacket)
            && c.waitingForSRI == (b.waitingForSRI && !due) && c.attach == b.attach
            && c.sriStream == (if due then push.stream else b.sriStream)
            && c.transmitThread == b.transmitThread && c.contextThread == b.contextThread && c.runThread == b.runThread
            && DataCount(c.queue) == DataCount(b.queue)
            && ContextCount(c.queue) ==
               ContextCount(b.queue) + (if reported && b.runThread && b.streamID == push.stream then 1 else 0)
  {
    hide EnqueueContext, DataCount, ContextCount;
    var ran := if b.samplesPerPacket == 0 then b.runThread else b.ranWhenConfigured;
    var m := b.(sriStream := push.stream, waitingForSRI := false);
    EnqueueEffect(m.(ranWhenConfigured := ran, samplesPerPacket := push.samplesPerPacket));
  }

  lemma BeginEffect(s: Life, push: Push, hashOf: string -> nat)
    requires Inv(s) && hashOf(push.stream) != 0
    ensures var b := if s.Active() then s else Setup(s, push.stream, hashOf);
            Begun(s, push, hashOf(push.stream), MergeSri(b, push))
  {
    hide MergeSri, DataCount, ContextCount;
    MergeEffect(if s.Active() then s else Setup(s, push.stream, hashOf), push);
  }

  lemma EmitEffect(c: Life, push: Push)
    ensures var d := Emit(c, push);
            && d == c.(queue := d.queue, carried := d.carried) && c.queue <= d.queue
            && DataCount(d.queue) == DataCount(c.queue) + push.completed
            && ContextCount(d.queue) == ContextCount(c.queue)
            && (d.carried == {} <==> !push.remains && (push.completed > 0 || c.carried == {}))
  {
    var items := DataItems(c, push, push.completed);
    DataItemsAre(c, push, push.completed);
    CountData(items);
    CountAppend(c.queue, items);
    hide DataItems, DataCount, ContextCount;
    assert push.remains ==> Origin(push.stream, c.Epoch()) in Emit(c, push).carried;
  }

  lemma FlushEffect(d: Life)
    ensures var f := FlushRest(d);
            && f == d.(queue := f.queue) && d.queue <= f.queue && ContextCount(f.queue) == ContextCount(d.queue)
            && DataCount(f.queue) == DataCount(d.queue) + (if d.carried == {} then 0 else 1)
  {
    CountData(LastItem(d));
    CountAppend(d.queue, LastItem(d));
    hide DataCount, ContextCount;
  }

  /** The stream goes on with what it has; only its packets and samples change. */
  predicate GoesOn(c: Life, t: Life) {
    && t.names == c.names && t.streamID == c.streamID && t.hash == c.hash && t.samplesPerPacket == c.samplesPerPacket
    && t.waitingForSRI == c.waitingForSRI && t.attach == c.attach
    && t.transmitThread == c.transmitThread && t.contextThread == c.contextThread && t.runThread == c.runThread
  }

  /** What is put out. */
  ghost predicate PutsOut(c: Life, t: Life, data: nat) {
    && c.queue <= t.queue && t.names == c.names && ContextCount(t.queue) == ContextCount(c.queue)
    && DataCount(t.queue) == DataCount(c.queue) + data
  }

  lemma EndEffect(d: Life, w: World)
    requires ThreadsAgree(d)
    ensures var t := TearDown(FlushRest(d), w);
            (if w.removable then Over(t) else GoesOn(d, t)) && PutsOut(d, t, if d.carried == {} then 0 else 1)
  {
    hide TearDown, FlushRest, DataCount, ContextCount;
    FlushEffect(d);
    TearDownEffect(FlushRest(d), w);
  }

  lemma CutEffect(c: Life, push: Push)
    requires ThreadsAgree(c)
    ensures var d := Emit(c, push);
            && GoesOn(c, d) && ThreadsAgree(d) && PutsOut(c, d, push.completed)
            && (d.carried == {} <==> !push.remains && (push.completed > 0 || c.carried == {}))
  {
    hide Emit, DataCount, ContextCount;
    EmitEffect(c, push);
  }

  lemma OutTwice(c: Life, d: Life, t: Life, n: nat, m: nat)
    requires PutsOut(c, d, n) && PutsOut(d, t, m)
    ensures PutsOut(c, t, n + m)
  {
    hide DataCount, ContextCount;
  }

  /** Where a push leaves the stream. */
  lemma DeliverEffect(c: Life, push: Push, w: World)
    requires ThreadsAgree(c)
    ensures var t, cut := Deliver(c, push, w), c.samplesPerPacket >= 1;
            && (if cut && push.eos && w.removable then Over(t) else GoesOn(c, t))
            && PutsOut(c, t, if !cut then 0
                             else push.completed +
                                  if push.eos && (push.remains || (push.completed == 0 && c.carried != {})) then 1
                                  else 0)
            && (cut && !push.eos ==> (t.carried == {} <==> !push.remains && (push.completed > 0 || c.carried == {})))
  {
    var d := Emit(c, push);
    CutEffect(c, push);
    EndEffect(d, w);
    OutTwice(c, d, TearDown(FlushRest(d), w), push.completed, if d.carried == {} then 0 else 1);
    NothingOut(c);
    hide Emit, FlushRest, TearDown, PutsOut, Over;
  }

  lemma NothingOut(c: Life)
    ensures PutsOut(c, c, 0) && GoesOn(c, c)
  {
    hide DataCount, ContextCount;
  }

  /** A push that is served in two parts: up to its merge, and from there. */
  lemma ServedParts(s: Life, push: Push, w: World, hashOf: string -> nat) returns (c: Life)
    requires Inv(s) && hashOf(push.stream) != 0 && Served(s, push, w)
    ensures Begun(s, push, hashOf(push.stream), c) && ThreadsAgree(c)
    ensures Step(s, Service(push, w), hashOf) == Deliver(c, push, w)
  {
    c := MergeSri(if s.Active() then s else Setup(s, push.stream, hashOf), push);
    BeginEffect(s, push, hashOf);
    hide Deliver, MergeSri, DataCount, ContextCount;
  }

  /** What a push that is served puts out, counted, in whatever state, and the stream it sets up. */
  lemma ServedPutsOut(s: Life, push: Push, w: World, hashOf: string -> nat)
    requires Inv(s) && hashOf(push.stream) != 0 && Served(s, push, w)
    ensures var t := Step(s, Service(push, w), hashOf);
            && DataCount(t.queue) == DataCount(s.queue) + PacketsOut(s, push)
            && ContextCount(t.queue) == ContextCount(s.queue) + ContextsOut(s, push)
            && t.names == (if s.Active() then s.names else s.names + [push.stream])
  {
    var c := ServedParts(s, push, w, hashOf);
    hide Step, Deliver, DataCount, ContextCount, Over, Inv, ContextsOut, SizeFor;
    DeliverEffect(c, push, w);
  }

  /** What it leaves: end of stream ends the stream; otherwise it goes on, its SRI merged, with its packet size. */
  lemma ServedLeaves(s: Life, push: Push, w: World, hashOf: string -> nat)
    requires Inv(s) && hashOf(push.stream) != 0 && Served(s, push, w)
    ensures var t := Step(s, Service(push, w), hashOf);
            if EndsStream(s, push, w) then Over(t)
            else
              && t.Active() && t.streamID == (if s.Active() then s.streamID else push.stream)
              && t.samplesPerPacket == SizeFor(s, push) && t.attach == (s.attach || !s.Active())
              && t.waitingForSRI == (s.waitingForSRI && !Due(s, push))
              && t.transmitThread == s.transmitThread && t.contextThread == s.contextThread
              && t.runThread == s.runThread
  {
    var c := ServedParts(s, push, w, hashOf);
    hide Step, Deliver, PutsOut, DataCount, ContextCount, Over, Inv, ContextsOut, SizeFor, Due;
    DeliverEffect(c, push, w);
  }

  /** And while the stream goes on, whether samples are carried into the next push. */
  lemma ServedCarries(s: Life, push: Push, w: World, hashOf: string -> nat)
    requires Inv(s) && hashOf(push.stream) != 0 && Served(s, push, w) && SizeFor(s, push) >= 1 && !push.eos
    ensures Step(s, Service(push, w), hashOf).carried == {} <==>
            !push.remains && (push.completed > 0 || s.carried == {})
  {
    var c := ServedParts(s, push, w, hashOf);
    hide Step, Deliver, PutsOut, GoesOn, DataCount, ContextCount, Over, Inv, ContextsOut, SizeFor, Due;
    DeliverEffect(c, push, w);
  }

  /** A turn of the timer puts out one context packet while it runs and no SRI is awaited, unless the current SRI is
      another stream's; nothing else changes. */
  lemma TimerEffect(s: Life, hashOf: string -> nat)
    requires Inv(s)
    ensures var t := Step(s, TimerTick, hashOf);
            && t == s.(queue := t.queue) && DataCount(t.queue) == DataCount(s.queue)
            && ContextCount(t.queue) == ContextCount(s.queue) +
               (if s.contextThread && !s.waitingForSRI && s.streamID == s.sriStream then 1 else 0)
  {
    EnqueueEffect(s);
    hide EnqueueContext, DataCount, ContextCount;
  }
}
