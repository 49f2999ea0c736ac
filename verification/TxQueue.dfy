/** The packet queue between threads: the service thread and the timer thread push, a transmitter
    pops, and the service thread destroys and launches transmitters. One step is what a thread does
    between two points where another may come in; the queue is locked for every push and every send,
    but not for the transmitter's emptiness test. */
module TxQueue {
  import opened Arithmetic

  type Packet = nat

  /** Settings that stay put while the threads run. */
  datatype Config = Config(burst: int, throttled: bool, contextPackets: bool)

  /** A transmitter thread: at the head of its loop, past a successful emptiness test, or ended. */
  datatype Pc = Loop | Ready | Done

  datatype Transmitter = Transmitter(pc: Pc, multicast: bool, pCount: nat, sent: nat, sleeps: nat,
                                     frameCounts: seq<nat>)

  datatype TimerPc = NoTimer | TimerLoop | TimerArmed | TimerDone

  /** What the service thread is doing: free, or joining one of the two threads it destroys. */
  datatype ServicePc = Free | JoinTransmitter | JoinTimer

  datatype Handle = Null | Thread(id: nat)

  datatype System = System(
    queue: seq<Packet>, pushed: seq<Packet>, sent: seq<Packet>,
    runThread: bool, transmitThread: Handle, transmitters: map<nat, Transmitter>, nextId: nat,
    timer: TimerPc, service: ServicePc,
    frontOnEmpty: bool, sentAfterStop: nat, sentByGone: nat)

  datatype Step =
    | ServicePush(p: Packet)
    | TimerTest
    | TimerPush(p: Packet)
    | TimerSkip
    | Test(id: nat)
    | Send(id: nat, framed: bool)
    | Destroy
    | Joined
    | Launch(multicast: bool)

  function Push(s: System, p: Packet): System { s.(queue := s.queue + [p], pushed := s.pushed + [p]) }

  /** The throttle and the counters of one send. The unicast loop never counts its packets. */
  function Count(t: Transmitter, c: Config, framed: bool): Transmitter {
    var sleep := c.throttled && c.burst == t.pCount;
    var pCount := if sleep then 0 else t.pCount;
    t.(pc := Loop,
       sleeps := t.sleeps + (if sleep then 1 else 0),
       pCount := if t.multicast then pCount + 1 else pCount,
       sent := t.sent + 1,
       frameCounts := if framed then t.frameCounts + [|t.frameCounts| % 4096] else t.frameCounts)
  }

  /** One step; a thread that is not there, or not at that point, does nothing. */
  function Next(s: System, c: Config, step: Step): System {
    match step
    case ServicePush(p) => if s.service == Free then Push(s, p) else s
    case TimerTest =>
      if s.timer != TimerLoop then s
      else s.(timer := if s.runThread then TimerArmed else TimerDone)
    case TimerPush(p) => if s.timer == TimerArmed then Push(s, p).(timer := TimerLoop) else s
    case TimerSkip => if s.timer == TimerArmed then s.(timer := TimerLoop) else s
    case Test(id) =>
      if id !in s.transmitters || s.transmitters[id].pc != Loop then s
      else
        var pc := if !s.runThread then Done else if s.queue != [] then Ready else Loop;
        s.(transmitters := s.transmitters[id := s.transmitters[id].(pc := pc)])
    case Send(id, framed) =>
      if id !in s.transmitters || s.transmitters[id].pc != Ready then s
      else if s.queue == [] then s.(frontOnEmpty := true)
      else
        s.(transmitters := s.transmitters[id := Count(s.transmitters[id], c, framed)],
           queue := s.queue[1..], sent := s.sent + [s.queue[0]],
           sentAfterStop := if s.runThread then 0 else s.sentAfterStop + 1)
    case Destroy =>
      if s.service != Free then s
      else if s.transmitThread != Null then s.(runThread := false, service := JoinTransmitter)
      else if s.timer != NoTimer then s.(runThread := false, service := JoinTimer)
      else s
    case Joined =>
      if s.service == JoinTransmitter && s.transmitThread.Thread? && s.transmitThread.id in s.transmitters &&
         s.transmitters[s.transmitThread.id].pc == Done then
        s.(transmitters := s.transmitters - {s.transmitThread.id}, transmitThread := Null,
           sentByGone := s.sentByGone + s.transmitters[s.transmitThread.id].sent,
           service := if s.timer == NoTimer then Free else JoinTimer)
      else if s.service == JoinTimer && s.timer == TimerDone then s.(timer := NoTimer, service := Free)
      else s
    case Launch(multicast) =>
      // launch_tx_thread destroys first, so there is neither thread when it creates them
      if s.service != Free || s.transmitThread != Null || s.timer != NoTimer then s
      else
        s.(runThread := true, sentAfterStop := 0, timer := if c.contextPackets then TimerLoop else NoTimer,
           transmitThread := Thread(s.nextId), nextId := s.nextId + 1,
           transmitters := s.transmitters[s.nextId := Transmitter(Loop, multicast, 0, 0, 0, [])])
  }

  function Start(): System {
    System([], [], [], false, Null, map[], 0, NoTimer, Free, false, 0, 0)
  }

  function Execute(s: System, c: Config, steps: seq<Step>): System {
    if steps == [] then s else Next(Execute(s, c, steps[..|steps| - 1]), c, steps[|steps| - 1])
  }

  // ---- invariant ----

  /** Sleeps and counters of one transmitter. With a burst of at least one and a throttle time, the
      multicast transmitter has sent burst * sleeps + pCount packets and pCount never passes the burst;
      the unicast one sleeps before every packet when the burst is zero and otherwise never. */
  ghost predicate Counted(t: Transmitter, c: Config) {
    && (t.multicast && c.throttled && c.burst >= 1 ==>
          t.sent == Times(t.sleeps, c.burst) + t.pCount && t.pCount <= c.burst)
    && (t.multicast && (!c.throttled || c.burst < 0) ==> t.sleeps == 0 && t.pCount == t.sent)
    && (t.multicast && c.throttled && c.burst == 0 ==> t.sleeps == (if t.sent == 0 then 0 else 1) && t.pCount == t.sent)
    && (!t.multicast ==> t.pCount == 0 && t.sleeps == if c.throttled && c.burst == 0 then t.sent else 0)
    && (forall k :: 0 <= k < |t.frameCounts| ==> t.frameCounts[k] == k % 4096)
  }

  /** The transmitter behind the handle. */
  predicate Present(s: System) { s.transmitThread.Thread? && s.transmitThread.id in s.transmitters }

  function Current(s: System): Transmitter
    requires Present(s)
  {
    s.transmitters[s.transmitThread.id]
  }

  /** The transmitter behind the handle is past its test with a packet to send. */
  predicate AboutToSend(s: System) {
    Present(s) && Current(s).pc == Ready
  }

  /** Pushed is sent followed by queued, and every sent packet was sent by one of the transmitters. */
  predicate Books(s: System) {
    && !s.frontOnEmpty
    && s.pushed == s.sent + s.queue
    && |s.sent| == s.sentByGone + (if Present(s) then Current(s).sent else 0)
  }

  /** At most one transmitter; it is past its test only with a packet to send; what the service thread waits for. */
  predicate Threads(s: System) {
    && s.transmitters.Keys == (if s.transmitThread.Null? then {} else {s.transmitThread.id})
    && (AboutToSend(s) ==> s.queue != [])
    && (s.runThread && Present(s) ==> Current(s).pc != Done)
    && (s.service == Free ==>
          s.runThread == s.transmitThread.Thread? && (s.transmitThread.Null? ==> s.timer == NoTimer))
    && (s.service == JoinTransmitter ==> !s.runThread && s.transmitThread.Thread?)
    && (s.service == JoinTimer ==> !s.runThread && s.transmitThread.Null? && s.timer != NoTimer)
    && (!s.runThread ==> s.sentAfterStop + (if AboutToSend(s) then 1 else 0) <= 1)
    && (s.runThread ==> s.sentAfterStop == 0)
  }

  ghost predicate Inv(s: System, c: Config) {
    Books(s) && Threads(s) && forall id :: id in s.transmitters ==> Counted(s.transmitters[id], c)
  }

  lemma CountKeeps(t: Transmitter, c: Config, framed: bool)
    requires Counted(t, c)
    ensures Counted(Count(t, c, framed), c)
  {
  }

  lemma CountLoops(t: Transmitter, c: Config, framed: bool)
    ensures Count(t, c, framed).pc == Loop && Count(t, c, framed).sent == t.sent + 1
  {
  }

  lemma PushKeepsInv(s: System, c: Config, p: Packet)
    requires Inv(s, c)
    ensures Inv(Push(s, p), c)
    ensures s.timer == TimerArmed ==> Inv(Push(s, p).(timer := TimerLoop), c)
  {
    hide Counted;
  }

  lemma TestKeepsInv(s: System, c: Config, id: nat)
    requires Inv(s, c)
    ensures Inv(Next(s, c, Test(id)), c)
  {
    var t := Next(s, c, Test(id));
    if id in s.transmitters {
      assert Counted(t.transmitters[id], c);
    }
    hide Counted;
    assert t.transmitters.Keys == s.transmitters.Keys;
  }

  lemma SendKeepsBooks(s: System, c: Config, id: nat, framed: bool)
    requires Books(s) && Threads(s)
    ensures Books(Next(s, c, Send(id, framed)))
  {
    if id in s.transmitters { CountLoops(s.transmitters[id], c, framed); }
    hide Count;
    assert s.queue != [] ==> s.queue == [s.queue[0]] + s.queue[1..];
  }

  lemma SendKeepsThreads(s: System, c: Config, id: nat, framed: bool)
    requires Threads(s)
    ensures Threads(Next(s, c, Send(id, framed)))
  {
    if id in s.transmitters { CountLoops(s.transmitters[id], c, framed); }
    hide Count;
    var t := Next(s, c, Send(id, framed));
    assert t.transmitters.Keys == s.transmitters.Keys;
  }

  lemma SendKeepsInv(s: System, c: Config, id: nat, framed: bool)
    requires Inv(s, c)
    ensures Inv(Next(s, c, Send(id, framed)), c)
  {
    SendKeepsBooks(s, c, id, framed);
    SendKeepsThreads(s, c, id, framed);
    if id in s.transmitters { CountKeeps(s.transmitters[id], c, framed); }
    hide Count, Counted, Books, Threads;
  }

  lemma JoinedKeepsInv(s: System, c: Config)
    requires Inv(s, c)
    ensures Inv(Next(s, c, Joined), c)
  {
    hide Counted;
    var t := Next(s, c, Joined);
    assert t.transmitThread.Null? && s.transmitThread.Thread? ==> t.transmitters.Keys == {};
  }

  lemma LaunchKeepsInv(s: System, c: Config, multicast: bool)
    requires Inv(s, c)
    ensures Inv(Next(s, c, Launch(multicast)), c)
  {
    var t := Next(s, c, Launch(multicast));
    assert Times(0, if c.burst >= 0 then c.burst else 0) == 0;
    assert Counted(Transmitter(Loop, multicast, 0, 0, 0, []), c);
    hide Counted;
    assert t.transmitThread != s.transmitThread ==> t.transmitters.Keys == {s.nextId};
  }

  lemma NextKeepsInv(s: System, c: Config, step: Step)
    requires Inv(s, c)
    ensures Inv(Next(s, c, step), c)
  {
    hide Counted, Count;
    match step
    case ServicePush(p) => PushKeepsInv(s, c, p);
    case TimerPush(p) => PushKeepsInv(s, c, p);
    case Test(id) => TestKeepsInv(s, c, id);
    case Send(id, framed) => SendKeepsInv(s, c, id, framed);
    case Joined => JoinedKeepsInv(s, c);
    case Launch(multicast) => LaunchKeepsInv(s, c, multicast);
    case TimerTest =>
    case TimerSkip =>
    case Destroy =>
  }

  /** Every interleaving keeps the queue's books: pushed is sent followed by queued, front() is never
      called on an empty queue, at most one transmitter exists, and at most one packet leaves after a
      transmitter was told to stop. */
  lemma {:induction false} EveryRun(c: Config, steps: seq<Step>)
    ensures Inv(Execute(Start(), c, steps), c)
  {
    if steps != [] {
      EveryRun(c, steps[..|steps| - 1]);
      hide Next, Inv;
      NextKeepsInv(Execute(Start(), c, steps[..|steps| - 1]), c, steps[|steps| - 1]);
    }
  }

  /** The test without the lock is safe only because there is one transmitter: two of them past the test
      with one packet queued call front() on an empty queue. */
  lemma TwoTransmittersFail(s: System, c: Config, a: nat, b: nat, p: Packet)
    requires a != b && a in s.transmitters && b in s.transmitters
    requires s.transmitters[a].pc == Loop && s.transmitters[b].pc == Loop
    requires s.runThread && s.queue == [p]
    ensures Execute(s, c, [Test(a), Test(b), Send(a, false), Send(b, false)]).frontOnEmpty
  {
    var steps := [Test(a), Test(b), Send(a, false), Send(b, false)];
    assert steps[..3] == [Test(a), Test(b), Send(a, false)];
    assert steps[..3][..2] == [Test(a), Test(b)];
    assert steps[..3][..2][..1] == [Test(a)];
    assert steps[..3][..2][..1][..0] == [];
    var s1 := Next(s, c, Test(a));
    var s2 := Next(s1, c, Test(b));
    var s3 := Next(s2, c, Send(a, false));
    assert Execute(s, c, steps[..3][..2][..1]) == s1;
    assert Execute(s, c, steps[..3][..2]) == s2;
    assert Execute(s, c, steps[..3]) == s3;
    assert s3.queue == [];
  }

  /** launch_tx_thread without the destroy_tx_thread it begins with. */
  function BareLaunch(s: System, c: Config, multicast: bool): System {
    s.(runThread := true, sentAfterStop := 0, timer := if c.contextPackets then TimerLoop else NoTimer,
       transmitThread := Thread(s.nextId), nextId := s.nextId + 1,
       transmitters := s.transmitters[s.nextId := Transmitter(Loop, multicast, 0, 0, 0, [])])
  }

  /** That is how there could be two: launching twice without destroying, one packet is enough. */
  lemma LaunchNeedsDestroy(c: Config, multicast: bool, p: Packet)
    ensures var one := Execute(Start(), c, [Launch(multicast)]);
            var two := Execute(BareLaunch(one, c, multicast), c, [ServicePush(p)]);
            Execute(two, c, [Test(0), Test(1), Send(0, false), Send(1, false)]).frontOnEmpty
  {
    ExecuteOne(Start(), c, Launch(multicast));
    var one := Next(Start(), c, Launch(multicast));
    ExecuteOne(BareLaunch(one, c, multicast), c, ServicePush(p));
    var two := Next(BareLaunch(one, c, multicast), c, ServicePush(p));
    TwoTransmittersFail(two, c, 0, 1, p);
  }

  lemma {:induction false} ExecuteAppend(s: System, c: Config, a: seq<Step>, b: seq<Step>)
    ensures Execute(s, c, a + b) == Execute(Execute(s, c, a), c, b)
  {
    if b == [] {
      assert a + b == a;
    } else {
      ExecuteAppend(s, c, a, b[..|b| - 1]);
      assert (a + b)[..|a + b| - 1] == a + b[..|b| - 1];
    }
  }

  lemma ExecuteOne(s: System, c: Config, step: Step)
    ensures Execute(s, c, [step]) == Next(s, c, step)
  {
    assert [step][..0] == [];
  }

  /** A step that only another thread's own progress needs: no push, no new thread. */
  predicate Progress(step: Step) { step.Test? || step.Send? || step.TimerTest? || step.TimerSkip? || step.Joined? }

  /** What is left of a destroy: turns of the transmitter, the two joins, turns of the timer. */
  function Remaining(s: System): nat {
    (if s.service == JoinTransmitter && s.transmitThread.Thread? && s.transmitThread.id in s.transmitters then
       match s.transmitters[s.transmitThread.id].pc case Ready => 4 case Loop => 3 case Done => 2
     else 0) +
    (if s.service == Free then 0
     else match s.timer case NoTimer => 0 case TimerArmed => 3 case TimerLoop => 2 case TimerDone => 1)
  }

  /** A destroy that has begun can always go on to its end by the threads' own steps: neither join waits
      for ever, and afterwards there is no thread. */
  lemma {:induction false} DestroyCompletes(s: System, c: Config) returns (steps: seq<Step>)
    requires Inv(s, c) && s.service != Free
    ensures forall i :: 0 <= i < |steps| ==> Progress(steps[i])
    ensures var t := Execute(s, c, steps);
            && t.service == Free && !t.runThread
            && t.transmitThread == Null && t.timer == NoTimer && t.transmitters == map[]
    ensures |steps| <= 7
    ensures |steps| <= Remaining(s)
    decreases Remaining(s)
  {
    hide Counted, Count;
    var step :=
      if s.service == JoinTransmitter then
        (match s.transmitters[s.transmitThread.id].pc
         case Ready => Send(s.transmitThread.id, false)
         case Loop => Test(s.transmitThread.id)
         case Done => Joined)
      else
        (match s.timer
         case TimerArmed => TimerSkip
         case TimerLoop => TimerTest
         case _ => Joined);
    NextKeepsInv(s, c, step);
    var t := Next(s, c, step);
    ExecuteOne(s, c, step);
    if t.service == Free {
      steps := [step];
    } else {
      assert Remaining(t) < Remaining(s);
      var rest := DestroyCompletes(t, c);
      ExecuteAppend(s, c, [step], rest);
      steps := [step] + rest;
    }
  }

  /** While a destroy is under way, no step of any thread puts its end further off, and every step that does
      anything at all brings it nearer. */
  lemma DestroyNearer(s: System, c: Config, step: Step)
    requires Inv(s, c) && s.service != Free
    ensures var t := Next(s, c, step); t == s || Remaining(t) < Remaining(s)
    ensures Remaining(s) <= 7
  {
    hide Counted, Count;
    match step
    case Test(id) =>
    case Send(id, framed) =>
      if id in s.transmitters { CountLoops(s.transmitters[id], c, framed); }
    case _ =>
  }

  /** How many steps of an interleaving do anything while the destroy is still under way. */
  function Effective(s: System, c: Config, steps: seq<Step>): nat
    decreases |steps|
  {
    if steps == [] || s.service == Free then 0
    else (if Next(s, c, steps[0]) == s then 0 else 1) + Effective(Next(s, c, steps[0]), c, steps[1..])
  }

  /** In every interleaving a destroy is over after at most seven steps that do anything, whosever they are; and
      until then one of the threads has such a step. */
  lemma {:induction false} DestroyEnds(s: System, c: Config, steps: seq<Step>)
    requires Inv(s, c)
    ensures Effective(s, c, steps) <= 7
    ensures s.service != Free ==> Effective(s, c, steps) <= Remaining(s)
    ensures s.service != Free ==> exists step :: Progress(step) && Next(s, c, step) != s
    decreases |steps|
  {
    if s.service != Free {
      var schedule := DestroyCompletes(s, c);
      SomeStepMoves(s, c, schedule);
      hide Next, Remaining, Inv;
      DestroyNearer(s, c, if steps == [] then Joined else steps[0]);
      if steps != [] {
        NextKeepsInv(s, c, steps[0]);
        DestroyEnds(Next(s, c, steps[0]), c, steps[1..]);
      }
    }
  }

  lemma {:induction false} SomeStepMoves(s: System, c: Config, steps: seq<Step>)
    requires Execute(s, c, steps) != s && forall i :: 0 <= i < |steps| ==> Progress(steps[i])
    ensures exists step :: Progress(step) && Next(s, c, step) != s
  {
    if steps != [] && Execute(s, c, steps[..|steps| - 1]) != s {
      SomeStepMoves(s, c, steps[..|steps| - 1]);
    } else {
      assert Next(s, c, steps[|steps| - 1]) != s;
    }
  }

  // ---- delivery ----

  /** A transmitter is running and nobody is destroying it. */
  ghost predicate Running(s: System, c: Config) { Inv(s, c) && s.service == Free && s.runThread }

  lemma RunningIs(s: System, c: Config)
    requires Running(s, c)
    ensures Present(s) && Current(s).pc != Done
  {
    hide Counted;
  }

  /** The transmitter's own next step: a test at the head of its loop, a send past the test. */
  predicate OwnStep(s: System, step: Step) {
    Present(s) &&
    match Current(s).pc
    case Loop => step == Test(s.transmitThread.id)
    case Ready => step.Send? && step.id == s.transmitThread.id
    case Done => false
  }

  /** While anything is queued that step moves the transmitter: a test lets it past, a send takes exactly the
      front packet, and counts it, and its frame if it goes out in one. */
  lemma OwnStepMoves(s: System, c: Config, step: Step)
    requires Running(s, c) && OwnStep(s, step) && s.queue != []
    ensures var t := Next(s, c, step);
            && Running(t, c) && t.pushed == s.pushed && t.transmitThread == s.transmitThread && Present(t)
            && (step.Test? ==> Current(t).pc == Ready && t.queue == s.queue && t.sent == s.sent)
            && (step.Send? ==>
                  && Current(t).pc == Loop && [s.queue[0]] + t.queue == s.queue && t.sent == s.sent + [s.queue[0]]
                  && |Current(t).frameCounts| == |Current(s).frameCounts| + (if step.framed then 1 else 0))
  {
    NextKeepsInv(s, c, step);
    if step.Send? { CountLoops(Current(s), c, step.framed); }
    hide Inv, Counted;
    assert s.queue == [s.queue[0]] + s.queue[1..];
  }

  /** What any other step does to a running system: packets may come, none is lost or held up. */
  lemma OtherStep(s: System, c: Config, step: Step)
    requires Running(s, c) && !step.Destroy? && !OwnStep(s, step)
    ensures var t := Next(s, c, step);
            && Running(t, c) && t.sent == s.sent && s.queue <= t.queue && t.transmitThread == s.transmitThread
            && Present(t) && Current(t).pc == Current(s).pc
  {
    NextKeepsInv(s, c, step);
    RunningIs(s, c);
    hide Counted, Count;
  }

  /** How many of the steps are the transmitter's own. */
  function OwnSteps(s: System, c: Config, steps: seq<Step>): nat
    decreases |steps|
  {
    if steps == [] then 0
    else (if OwnStep(s, steps[0]) then 1 else 0) + OwnSteps(Next(s, c, steps[0]), c, steps[1..])
  }

  lemma ExecuteFirst(s: System, c: Config, steps: seq<Step>)
    requires steps != []
    ensures Execute(s, c, steps) == Execute(Next(s, c, steps[0]), c, steps[1..])
  {
    hide Next;
    ExecuteAppend(s, c, [steps[0]], steps[1..]);
    assert steps == [steps[0]] + steps[1..];
    ExecuteOne(s, c, steps[0]);
  }

  function ReadyCount(s: System): nat { if AboutToSend(s) then 1 else 0 }

  /** One step of such an interleaving: of the first n queued packets at most one leaves, and only by a send. */
  lemma FairStep(s: System, c: Config, step: Step, n: nat) returns (m: nat)
    requires Running(s, c) && n <= |s.queue| && !step.Destroy?
    ensures var t := Next(s, c, step);
            && Running(t, c) && m <= |t.queue| && s.sent + s.queue[..n] <= t.sent + t.queue[..m]
            && (m == 0 || 2 * m + ReadyCount(s) + (if OwnStep(s, step) then 1 else 0) <= 2 * n + ReadyCount(t))
  {
    RunningIs(s, c);
    m := n;
    if OwnStep(s, step) && s.queue != [] {
      OwnStepMoves(s, c, step);
      if step.Send? && n > 0 { m := n - 1; }
    } else if OwnStep(s, step) {
      IdleTest(s, c, step);
    } else {
      OtherStep(s, c, step);
    }
    hide Running, Next;
  }

  /** Fairness is enough: in every interleaving without a destroy, in which the transmitter makes two steps of its
      own for each packet that was queued, all these packets leave, in order, behind the ones before. */
  lemma {:induction false} FairDelivery(s: System, c: Config, steps: seq<Step>, n: nat)
    requires Running(s, c) && n <= |s.queue| && forall i :: 0 <= i < |steps| ==> !steps[i].Destroy?
    requires OwnSteps(s, c, steps) + ReadyCount(s) >= 2 * n
    ensures s.sent + s.queue[..n] <= Execute(s, c, steps).sent
    decreases |steps|
  {
    hide Running, Next, OwnStep, ReadyCount;
    if steps != [] {
      var m := FairStep(s, c, steps[0], n);
      ExecuteFirst(s, c, steps);
      FairDelivery(Next(s, c, steps[0]), c, steps[1..], m);
    } else {
      AtMostOne(s);
    }
  }

  lemma AtMostOne(s: System)
    ensures ReadyCount(s) <= 1
  {
  }

  /** With nothing queued the transmitter stays at the head of its loop. */
  lemma IdleTest(s: System, c: Config, step: Step)
    requires Running(s, c) && OwnStep(s, step) && s.queue == []
    ensures Running(Next(s, c, step), c) && step.Test?
    ensures var t := Next(s, c, step); t.queue == [] && t.sent == s.sent && !AboutToSend(t)
  {
    NextKeepsInv(s, c, step);
    hide Counted;
  }

  lemma ReadyHasPacket(s: System, c: Config)
    requires Running(s, c)
    ensures s.queue == [] ==> ReadyCount(s) == 0
  {
    hide Counted;
  }

  /** Every one of the steps is the transmitter's own. */
  predicate AllOwn(s: System, c: Config, steps: seq<Step>)
    decreases |steps|
  {
    steps == [] || (OwnStep(s, steps[0]) && AllOwn(Next(s, c, steps[0]), c, steps[1..]))
  }

  /** The transmitter's own next step, if anything is queued. */
  lemma OwnNext(s: System, c: Config, framed: bool) returns (step: Step)
    requires Running(s, c) && s.queue != []
    ensures OwnStep(s, step)
    ensures var t := Next(s, c, step);
            && Running(t, c) && t.sent + t.queue == s.sent + s.queue
            && 2 * |t.queue| + 1 - ReadyCount(t) < 2 * |s.queue| + 1 - ReadyCount(s)
            && (t.queue == s.queue || (step.Send? && step.framed == framed))
  {
    RunningIs(s, c);
    step := if Current(s).pc == Loop then Test(s.transmitThread.id) else Send(s.transmitThread.id, framed);
    OwnStepMoves(s, c, step);
    hide Running, Next;
  }

  /** And it needs nobody else: its own steps alone send exactly what is queued. */
  lemma {:induction false} DrainsAlone(s: System, c: Config, framed: bool) returns (steps: seq<Step>)
    requires Running(s, c)
    ensures AllOwn(s, c, steps) && |steps| + ReadyCount(s) <= 2 * |s.queue|
    ensures var t := Execute(s, c, steps); t.queue == [] && t.sent == s.sent + s.queue && Running(t, c)
    decreases 2 * |s.queue| + 1 - ReadyCount(s)
  {
    hide Running, Next, OwnStep, ReadyCount;
    steps := [];
    AtMostOne(s);
    ReadyHasPacket(s, c);
    if s.queue != [] {
      var step := OwnNext(s, c, framed);
      AtMostOne(Next(s, c, step));
      var rest := DrainsAlone(Next(s, c, step), c, framed);
      steps := [step] + rest;
      assert steps[1..] == rest;
      ExecuteFirst(s, c, steps);
    }
  }

  /** A push arrives: the service thread's at any time it is free, the timer's when it is armed, and it is armed by
      a test while the threads run. */
  lemma PushesArrive(s: System, c: Config, p: Packet)
    ensures s.service == Free ==> Next(s, c, ServicePush(p)) == s.(queue := s.queue + [p], pushed := s.pushed + [p])
    ensures s.timer == TimerLoop && s.runThread ==>
              var t := Next(Next(s, c, TimerTest), c, TimerPush(p));
              t.queue == s.queue + [p] && t.pushed == s.pushed + [p] && t.timer == TimerLoop
  {
  }

  /** A launch after a destroy starts a transmitter that runs, with the queue as it was. */
  lemma LaunchRuns(s: System, c: Config, multicast: bool)
    requires Inv(s, c) && s.service == Free && !s.runThread
    ensures var t := Next(s, c, Launch(multicast));
            Running(t, c) && t.queue == s.queue && Present(t) && Current(t).multicast == multicast
    ensures c.contextPackets <==> Next(s, c, Launch(multicast)).timer == TimerLoop
  {
    LaunchKeepsInv(s, c, multicast);
    hide Counted;
  }
}
