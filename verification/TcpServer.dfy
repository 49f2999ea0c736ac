/** The TCP server: the write queue of a session, the fan-out of the server to its sessions, and the
    receive buffer. */
module TcpServer {

  import opened ByteStrings

  type Bytes = seq<Byte>

  // ---- one session's write queue ----

  datatype Outstanding = NoWrite | Writing(data: Bytes)

  /** A session: its deque, the asynchronous write under way, what was accepted for writing and what
      was written completely, whether a write failed. */
  datatype Link = Link(open: bool, writeBuffer: seq<Bytes>, outstanding: Outstanding,
                       accepted: seq<Bytes>, completed: seq<Bytes>, failed: bool)

  datatype LinkEvent = Write(data: Bytes) | Completion(error: bool)

  function NewLink(): Link { Link(true, [], NoWrite, [], [], false) }

  /** session::write: an entry is queued, and its write started if it is the only one. */
  function LinkWrite(l: Link, data: Bytes): Link {
    if !l.open then l
    else
      var queued := l.writeBuffer + [data];
      l.(writeBuffer := queued, accepted := l.accepted + [data],
         outstanding := if |queued| == 1 then Writing(queued[0]) else l.outstanding)
  }

  /** handle_write: the front entry leaves; without an error the next one is started. */
  function LinkCompletion(l: Link, error: bool): Link {
    if l.outstanding.NoWrite? || l.writeBuffer == [] then l
    else
      var rest := l.writeBuffer[1..];
      l.(writeBuffer := rest,
         completed := if error then l.completed else l.completed + [l.outstanding.data],
         failed := l.failed || error,
         outstanding := if error || rest == [] then NoWrite else Writing(rest[0]))
  }

  function LinkStep(l: Link, e: LinkEvent): Link {
    match e
    case Write(data) => LinkWrite(l, data)
    case Completion(error) => LinkCompletion(l, error)
  }

  function LinkRun(l: Link, events: seq<LinkEvent>): Link {
    if events == [] then l else LinkStep(LinkRun(l, events[..|events| - 1]), events[|events| - 1])
  }

  /** Until the first error a write is under way exactly when the deque is not empty, it is the front
      entry's, and completed and queued entries are the accepted ones, in order. */
  ghost predicate LinkInv(l: Link) {
    !l.failed ==>
      && l.outstanding == (if l.writeBuffer == [] then NoWrite else Writing(l.writeBuffer[0]))
      && l.completed + l.writeBuffer == l.accepted
  }

  /** After an error, what was completed is still the beginning of what was accepted. */
  ghost predicate CompletedInOrder(l: Link) { l.completed <= l.accepted }

  lemma LinkStepKeepsInv(l: Link, e: LinkEvent)
    requires LinkInv(l) && CompletedInOrder(l)
    requires l.failed ==> e.Write?
    ensures LinkInv(LinkStep(l, e)) && CompletedInOrder(LinkStep(l, e))
  {
    if e.Completion? && l.writeBuffer != [] {
      assert l.completed + l.writeBuffer == (l.completed + [l.writeBuffer[0]]) + l.writeBuffer[1..];
    }
    if e.Write? {
      assert l.completed + (l.writeBuffer + [e.data]) == (l.completed + l.writeBuffer) + [e.data];
    }
  }

  lemma {:induction false} FailedOnlyByError(l: Link, events: seq<LinkEvent>)
    requires !l.failed && forall i :: 0 <= i < |events| ==> !(events[i].Completion? && events[i].error)
    ensures !LinkRun(l, events).failed
  {
    if events != [] { FailedOnlyByError(l, events[..|events| - 1]); }
  }

  /** In every interleaving of writes and successful completions, the bytes written followed by the bytes
      queued are the bytes accepted, and the write under way is the front entry's. */
  lemma {:induction false} WriteQueueInOrder(events: seq<LinkEvent>)
    requires forall i :: 0 <= i < |events| ==> !(events[i].Completion? && events[i].error)
    ensures var l := LinkRun(NewLink(), events);
            && LinkInv(l) && CompletedInOrder(l) && !l.failed
            && Flat(l.completed) + Flat(l.writeBuffer) == Flat(l.accepted)
  {
    FailedOnlyByError(NewLink(), events);
    if events != [] {
      WriteQueueInOrder(events[..|events| - 1]);
      LinkStepKeepsInv(LinkRun(NewLink(), events[..|events| - 1]), events[|events| - 1]);
    }
    var l := LinkRun(NewLink(), events);
    FlatAppend(l.completed, l.writeBuffer);
  }

  /** The data of the writes among the events. */
  function Writes(events: seq<LinkEvent>): seq<Bytes> {
    if events == [] then []
    else
      var last := events[|events| - 1];
      Writes(events[..|events| - 1]) + if last.Write? then [last.data] else []
  }

  /** A session accepts what it is given to write, all of it and in order. */
  lemma {:induction false} AcceptsAllWrites(events: seq<LinkEvent>)
    ensures LinkRun(NewLink(), events).open && LinkRun(NewLink(), events).accepted == Writes(events)
  {
    if events != [] {
      AcceptsAllWrites(events[..|events| - 1]);
      assert Writes(events[..|events| - 1]) + [] == Writes(events[..|events| - 1]);
    }
  }

  /** A successful completion takes exactly the front entry off the deque, which is then written completely, and
      starts the write of the next one, if there is one. */
  lemma CompletionAdvances(l: Link)
    requires LinkInv(l) && !l.failed && l.outstanding.Writing?
    ensures l.writeBuffer != [] && l.outstanding.data == l.writeBuffer[0]
    ensures var t := LinkCompletion(l, false);
            && t.completed == l.completed + [l.writeBuffer[0]] && [l.writeBuffer[0]] + t.writeBuffer == l.writeBuffer
            && t.accepted == l.accepted && !t.failed && t.open == l.open
            && (t.outstanding.Writing? <==> |l.writeBuffer| > 1)
            && (t.outstanding.Writing? ==> t.outstanding.data == l.writeBuffer[1])
  {
    assert [l.writeBuffer[0]] + l.writeBuffer[1..] == l.writeBuffer;
  }

  predicate NoError(events: seq<LinkEvent>) {
    forall i :: 0 <= i < |events| ==> !(events[i].Completion? && events[i].error)
  }

  function Completions(events: seq<LinkEvent>): nat {
    if events == [] then 0 else (if events[0].Completion? then 1 else 0) + Completions(events[1..])
  }

  lemma {:induction false} LinkRunFirst(l: Link, events: seq<LinkEvent>)
    requires events != []
    ensures LinkRun(l, events) == LinkRun(LinkStep(l, events[0]), events[1..])
  {
    hide LinkStep;
    var last := |events| - 1;
    if last > 0 {
      LinkRunFirst(l, events[..last]);
      assert events[..last][1..] == events[1..][..last - 1];
    }
  }

  /** One event without an error: what was completed stays, and of the first n queued entries at most one is done. */
  lemma FairLinkStep(l: Link, e: LinkEvent, n: nat) returns (m: nat)
    requires LinkInv(l) && CompletedInOrder(l) && !l.failed && n <= |l.writeBuffer|
    requires !(e.Completion? && e.error)
    ensures var t := LinkStep(l, e);
            && LinkInv(t) && CompletedInOrder(t) && !t.failed && m <= |t.writeBuffer|
            && l.completed + l.writeBuffer[..n] <= t.completed + t.writeBuffer[..m]
            && (m == 0 || m + (if e.Completion? then 1 else 0) <= n)
  {
    LinkStepKeepsInv(l, e);
    m := n;
    if e.Completion? && l.outstanding.Writing? {
      CompletionAdvances(l);
      if n > 0 { m := n - 1; }
    }
  }

  /** In every interleaving of writes with as many successful completions as there were entries queued, all these
      entries are written completely, in order, behind the ones before. */
  lemma {:induction false} FairCompletion(l: Link, events: seq<LinkEvent>, n: nat)
    requires LinkInv(l) && CompletedInOrder(l) && !l.failed && n <= |l.writeBuffer|
    requires NoError(events) && Completions(events) >= n
    ensures l.completed + l.writeBuffer[..n] <= LinkRun(l, events).completed
    decreases |events|
  {
    if events != [] {
      hide LinkInv, CompletedInOrder, LinkStep;
      var m := FairLinkStep(l, events[0], n);
      LinkRunFirst(l, events);
      FairCompletion(LinkStep(l, events[0]), events[1..], m);
    }
  }

  /** n successful completions. */
  function Successes(n: nat): seq<LinkEvent> { if n == 0 then [] else [Completion(false)] + Successes(n - 1) }

  /** As many successful completions as entries are queued leave nothing to write: all that was accepted is
      completed. */
  lemma {:induction false} CompletionsDrain(l: Link)
    requires LinkInv(l) && CompletedInOrder(l) && !l.failed
    ensures var t := LinkRun(l, Successes(|l.writeBuffer|));
            t.completed == t.accepted == l.accepted && t.writeBuffer == [] && t.outstanding.NoWrite? && !t.failed
    decreases |l.writeBuffer|
  {
    if l.writeBuffer != [] {
      CompletionAdvances(l);
      LinkStepKeepsInv(l, Completion(false));
      var events := Successes(|l.writeBuffer|);
      assert events[0] == Completion(false) && events[1..] == Successes(|l.writeBuffer| - 1);
      LinkRunFirst(l, events);
      CompletionsDrain(LinkCompletion(l, false));
    }
  }

  // ---- fan-out ----

  /** A session with the place in the server's write log at which it was accepted. */
  datatype Member = Member(id: nat, joinedAt: nat, link: Link)

  datatype Gone = Gone(member: Member, leftAt: nat)

  datatype Hub = Hub(sessions: seq<Member>, gone: seq<Gone>, nextId: nat, written: seq<Bytes>)

  datatype HubEvent = Accept | Broadcast(data: Bytes) | Done(id: nat, error: bool)

  function WriteAll(ms: seq<Member>, data: Bytes): seq<Member> {
    seq(|ms|, i requires 0 <= i < |ms| => ms[i].(link := LinkWrite(ms[i].link, data)))
  }

  function Without(ms: seq<Member>, id: nat): seq<Member> {
    if ms == [] then [] else if ms[0].id == id then Without(ms[1..], id) else [ms[0]] + Without(ms[1..], id)
  }

  function Find(ms: seq<Member>, id: nat): (i: nat)
    ensures i <= |ms| && (i < |ms| ==> ms[i].id == id)
    ensures forall k :: 0 <= k < i ==> ms[k].id != id
  {
    if ms == [] then 0 else if ms[0].id == id then 0 else 1 + Find(ms[1..], id)
  }

  /** handle_accept appends the session, server::write writes to every session, a completion with an
      error closes its session. */
  function HubStep(h: Hub, e: HubEvent): Hub {
    match e
    case Accept => h.(sessions := h.sessions + [Member(h.nextId, |h.written|, NewLink())], nextId := h.nextId + 1)
    case Broadcast(data) => h.(sessions := WriteAll(h.sessions, data), written := h.written + [data])
    case Done(id, error) =>
      var i := Find(h.sessions, id);
      if i == |h.sessions| || h.sessions[i].link.outstanding.NoWrite? || h.sessions[i].link.writeBuffer == [] then h
      else
        var m := h.sessions[i].(link := LinkCompletion(h.sessions[i].link, error));
        if error then h.(sessions := Without(h.sessions, id), gone := h.gone + [Gone(m, |h.written|)])
        else h.(sessions := h.sessions[i := m])
  }

  function HubRun(events: seq<HubEvent>): Hub {
    if events == [] then Hub([], [], 0, []) else HubStep(HubRun(events[..|events| - 1]), events[|events| - 1])
  }

  /** Going on from a hub. */
  function HubFrom(h: Hub, events: seq<HubEvent>): Hub
    decreases |events|
  {
    if events == [] then h else HubFrom(HubStep(h, events[0]), events[1..])
  }

  ghost predicate MemberInv(m: Member, written: seq<Bytes>, upTo: nat) {
    && m.joinedAt <= upTo <= |written| && m.link.open
    && m.link.accepted == written[m.joinedAt..upTo]
    && LinkInv(m.link) && CompletedInOrder(m.link)
  }

  ghost predicate HubInv(h: Hub) {
    && (forall i :: 0 <= i < |h.sessions| ==>
         MemberInv(h.sessions[i], h.written, |h.written|) && h.sessions[i].id < h.nextId && !h.sessions[i].link.failed)
    && (forall i, j :: 0 <= i < j < |h.sessions| ==> h.sessions[i].id < h.sessions[j].id)
    && (forall i :: 0 <= i < |h.gone| ==> MemberInv(h.gone[i].member, h.written, h.gone[i].leftAt))
    && |h.sessions| + |h.gone| == h.nextId
  }

  lemma {:induction false} WithoutOne(ms: seq<Member>, i: nat)
    requires i < |ms| && forall j, k :: 0 <= j < k < |ms| ==> ms[j].id < ms[k].id
    ensures Without(ms, ms[i].id) == ms[..i] + ms[i + 1..]
  {
    if i == 0 {
      WithoutAbsent(ms[1..], ms[0].id);
    } else {
      WithoutOne(ms[1..], i - 1);
      assert ms[..i] + ms[i + 1..] == [ms[0]] + (ms[1..][..i - 1] + ms[1..][i..]);
    }
  }

  lemma {:induction false} WithoutAbsent(ms: seq<Member>, id: nat)
    requires forall m :: m in ms ==> m.id != id
    ensures Without(ms, id) == ms
  {
    if ms != [] { WithoutAbsent(ms[1..], id); }
  }

  lemma MemberWrites(m: Member, written: seq<Bytes>, data: Bytes)
    requires MemberInv(m, written, |written|) && !m.link.failed
    ensures MemberInv(m.(link := LinkWrite(m.link, data)), written + [data], |written| + 1)
    ensures !LinkWrite(m.link, data).failed
  {
    LinkStepKeepsInv(m.link, Write(data));
    assert (written + [data])[m.joinedAt..|written| + 1] == written[m.joinedAt..|written|] + [data];
  }

  lemma MemberLater(m: Member, written: seq<Bytes>, upTo: nat, data: Bytes)
    requires MemberInv(m, written, upTo)
    ensures MemberInv(m, written + [data], upTo)
  {
    assert (written + [data])[m.joinedAt..upTo] == written[m.joinedAt..upTo];
  }

  lemma HubStepKeepsInv(h: Hub, e: HubEvent)
    requires HubInv(h)
    ensures HubInv(HubStep(h, e))
  {
    match e
    case Accept =>
      hide MemberInv;
      NewMember(h.nextId, h.written);
    case Broadcast(data) =>
      hide LinkInv, CompletedInOrder;
      forall i | 0 <= i < |h.sessions|
        ensures var m := WriteAll(h.sessions, data)[i];
                MemberInv(m, h.written + [data], |h.written| + 1) && !m.link.failed
      {
        MemberWrites(h.sessions[i], h.written, data);
      }
      forall i | 0 <= i < |h.gone| ensures MemberInv(h.gone[i].member, h.written + [data], h.gone[i].leftAt) {
        MemberLater(h.gone[i].member, h.written, h.gone[i].leftAt, data);
      }
    case Done(id, error) =>
      DoneKeepsInv(h, id, error);
  }

  /** A completion leaves the session with its slice of the log. */
  lemma MemberCompletes(m: Member, written: seq<Bytes>, error: bool)
    requires MemberInv(m, written, |written|) && !m.link.failed
    ensures var t := m.(link := LinkCompletion(m.link, error));
            MemberInv(t, written, |written|) && (t.link.failed ==> error)
  {
    LinkStepKeepsInv(m.link, Completion(error));
    hide LinkInv, CompletedInOrder;
  }

  lemma SuccessKeepsInv(h: Hub, i: nat, m: Member)
    requires HubInv(h) && i < |h.sessions| && m.id == h.sessions[i].id
    requires MemberInv(m, h.written, |h.written|) && !m.link.failed
    ensures HubInv(h.(sessions := h.sessions[i := m]))
  {
    hide MemberInv;
  }

  lemma FailureKeepsInv(h: Hub, i: nat, m: Member)
    requires HubInv(h) && i < |h.sessions| && MemberInv(m, h.written, |h.written|)
    ensures HubInv(h.(sessions := Without(h.sessions, h.sessions[i].id), gone := h.gone + [Gone(m, |h.written|)]))
  {
    hide MemberInv, Without;
    WithoutOne(h.sessions, i);
    var rest := h.sessions[..i] + h.sessions[i + 1..];
    forall k | 0 <= k < |rest| ensures rest[k] == h.sessions[if k < i then k else k + 1] {}
  }

  lemma DoneKeepsInv(h: Hub, id: nat, error: bool)
    requires HubInv(h)
    ensures HubInv(HubStep(h, Done(id, error)))
  {
    var i := Find(h.sessions, id);
    if i < |h.sessions| {
      var m := h.sessions[i].(link := LinkCompletion(h.sessions[i].link, error));
      MemberCompletes(h.sessions[i], h.written, error);
      if error { FailureKeepsInv(h, i, m); } else { SuccessKeepsInv(h, i, m); }
    }
    hide HubInv, LinkCompletion, Without;
  }

  lemma NewMember(id: nat, written: seq<Bytes>)
    ensures MemberInv(Member(id, |written|, NewLink()), written, |written|)
  {
  }

  /** In every run each session was handed exactly what the server wrote between its acceptance and its
      closing, in order and without a gap. */
  lemma {:induction false} FanOutInOrder(events: seq<HubEvent>)
    ensures HubInv(HubRun(events))
  {
    if events != [] {
      FanOutInOrder(events[..|events| - 1]);
      hide HubInv, HubStep;
      HubStepKeepsInv(HubRun(events[..|events| - 1]), events[|events| - 1]);
    }
  }

  function Accepts(events: seq<HubEvent>): nat {
    if events == [] then 0
    else Accepts(events[..|events| - 1]) + (if events[|events| - 1].Accept? then 1 else 0)
  }

  function Broadcasts(events: seq<HubEvent>): seq<Bytes> {
    if events == [] then []
    else
      var last := events[|events| - 1];
      Broadcasts(events[..|events| - 1]) + if last.Broadcast? then [last.data] else []
  }

  /** Every accepted session is there or was closed by its own failed completion, and the write log is what was
      written to the server. */
  lemma {:induction false} HubCounts(events: seq<HubEvent>)
    ensures var h := HubRun(events);
            |h.sessions| + |h.gone| == Accepts(events) == h.nextId && h.written == Broadcasts(events)
  {
    FanOutInOrder(events);
    if events != [] {
      HubCounts(events[..|events| - 1]);
      assert Broadcasts(events[..|events| - 1]) + [] == Broadcasts(events[..|events| - 1]);
    }
  }

  /** What the events are to the session with the given id. */
  function Seen(e: HubEvent, id: nat): seq<LinkEvent> {
    match e
    case Accept => []
    case Broadcast(data) => [Write(data)]
    case Done(other, error) => if other == id then [Completion(error)] else []
  }

  function AllSeen(events: seq<HubEvent>, id: nat): seq<LinkEvent> {
    if events == [] then [] else Seen(events[0], id) + AllSeen(events[1..], id)
  }

  predicate Fails(e: HubEvent, id: nat) { e.Done? && e.id == id && e.error }

  /** Another session's completion, in which that one may close. */
  lemma OtherDone(h: Hub, i: nat, id: nat, error: bool) returns (j: nat)
    requires HubInv(h) && i < |h.sessions| && h.sessions[i].id != id
    ensures var t := HubStep(h, Done(id, error)); j < |t.sessions| && t.sessions[j] == h.sessions[i]
  {
    hide LinkCompletion, MemberInv;
    var k := Find(h.sessions, id);
    j := i;
    if k < |h.sessions| {
      WithoutOne(h.sessions, k);
      hide Without;
      var t := HubStep(h, Done(id, error));
      var rest := h.sessions[..k] + h.sessions[k + 1..];
      if t.sessions == rest {
        j := if i < k then i else i - 1;
        assert rest[j] == h.sessions[i];
      } else {
        assert t.sessions == h.sessions || t.sessions[i] == h.sessions[i];
      }
    }
  }

  /** Its own successful completion. */
  lemma OwnDone(h: Hub, i: nat)
    requires HubInv(h) && i < |h.sessions|
    ensures var t, m := HubStep(h, Done(h.sessions[i].id, false)), h.sessions[i];
            i < |t.sessions| && t.sessions[i] == m.(link := LinkCompletion(m.link, false))
  {
    hide MemberInv;
    assert Find(h.sessions, h.sessions[i].id) == i;
  }

  /** One event, as one session lives through it; its place in the list may change when another one closes. */
  lemma SessionStep(h: Hub, i: nat, e: HubEvent) returns (j: nat)
    requires HubInv(h) && i < |h.sessions| && !Fails(e, h.sessions[i].id)
    ensures var t, m := HubStep(h, e), h.sessions[i];
            j < |t.sessions| && t.sessions[j] == m.(link := LinkRun(m.link, Seen(e, m.id)))
  {
    hide LinkRun, LinkCompletion, LinkWrite, Seen, MemberInv;
    SeenRun(h.sessions[i].link, e, h.sessions[i].id);
    j := i;
    if e.Done? {
      if e.id == h.sessions[i].id {
        OwnDone(h, i);
      } else {
        j := OtherDone(h, i, e.id, e.error);
      }
      hide HubStep;
    } else if e.Broadcast? {
      assert WriteAll(h.sessions, e.data)[i] == h.sessions[i].(link := LinkWrite(h.sessions[i].link, e.data));
    } else {
      assert HubStep(h, e).sessions[i] == h.sessions[i];
    }
  }

  lemma SeenRun(l: Link, e: HubEvent, id: nat)
    ensures LinkRun(l, Seen(e, id)) ==
            if e.Broadcast? then LinkWrite(l, e.data)
            else if e.Done? && e.id == id then LinkCompletion(l, e.error)
            else l
  {
    if Seen(e, id) != [] { assert Seen(e, id)[..0] == []; }
  }

  lemma {:induction false} LinkRunAppend(l: Link, a: seq<LinkEvent>, b: seq<LinkEvent>)
    ensures LinkRun(l, a + b) == LinkRun(LinkRun(l, a), b)
  {
    if b == [] {
      assert a + b == a;
    } else {
      hide LinkStep;
      var last := |b| - 1;
      LinkRunAppend(l, a, b[..last]);
      assert (a + b)[..|a + b| - 1] == a + b[..last];
    }
  }

  /** Whatever happens to the others, a session that does not fail lives exactly through the writes to the server and
      its own completions. */
  lemma {:induction false} SessionIsLink(h: Hub, i: nat, events: seq<HubEvent>) returns (j: nat)
    requires HubInv(h) && i < |h.sessions|
    requires forall k :: 0 <= k < |events| ==> !Fails(events[k], h.sessions[i].id)
    ensures var t, m := HubFrom(h, events), h.sessions[i];
            j < |t.sessions| && t.sessions[j] == m.(link := LinkRun(m.link, AllSeen(events, m.id)))
    decreases |events|
  {
    var m := h.sessions[i];
    if events == [] {
      j := i;
    } else {
      hide HubInv, HubStep, Seen, LinkRun;
      var k := SessionStep(h, i, events[0]);
      HubStepKeepsInv(h, events[0]);
      LinkRunAppend(m.link, Seen(events[0], m.id), AllSeen(events[1..], m.id));
      j := SessionIsLink(HubStep(h, events[0]), k, events[1..]);
    }
  }

  /** So each session gets everything: after events with as many successful completions of its own as it had entries
      queued, all that it had accepted is written completely. */
  lemma FanOutDelivers(h: Hub, i: nat, events: seq<HubEvent>) returns (j: nat)
    requires HubInv(h) && i < |h.sessions|
    requires forall k :: 0 <= k < |events| ==> !Fails(events[k], h.sessions[i].id)
    requires Completions(AllSeen(events, h.sessions[i].id)) >= |h.sessions[i].link.writeBuffer|
    ensures var t, m := HubFrom(h, events), h.sessions[i];
            j < |t.sessions| && t.sessions[j].id == m.id && m.link.accepted <= t.sessions[j].link.completed
  {
    var m := h.sessions[i];
    j := SessionIsLink(h, i, events);
    SeenNoError(events, m.id);
    assert LinkInv(m.link) && CompletedInOrder(m.link) && !m.link.failed;
    assert m.link.completed + m.link.writeBuffer[..|m.link.writeBuffer|] == m.link.accepted;
    hide HubInv, LinkInv, CompletedInOrder, HubFrom, LinkRun;
    FairCompletion(m.link, AllSeen(events, m.id), |m.link.writeBuffer|);
  }

  lemma {:induction false} SeenNoError(events: seq<HubEvent>, id: nat)
    requires forall k :: 0 <= k < |events| ==> !Fails(events[k], id)
    ensures NoError(AllSeen(events, id))
  {
    if events != [] {
      SeenNoError(events[1..], id);
      var first, rest := Seen(events[0], id), AllSeen(events[1..], id);
      var all: seq<LinkEvent> := first + rest;
      forall i | 0 <= i < |all| ensures !(all[i].Completion? && all[i].error) {
        if i >= |first| { assert all[i] == rest[i - |first|]; }
      }
    }
  }

  /** A failed completion closes the session it belongs to, and no other. */
  lemma FailureCloses(h: Hub, i: nat)
    requires HubInv(h) && i < |h.sessions| && h.sessions[i].link.outstanding.Writing?
    ensures var t, m := HubStep(h, Done(h.sessions[i].id, true)), h.sessions[i];
            && t.sessions == h.sessions[..i] + h.sessions[i + 1..] && t.written == h.written
            && |t.gone| == |h.gone| + 1 && t.gone[|h.gone|].leftAt == |h.written|
            && t.gone[|h.gone|].member.id == m.id && t.gone[|h.gone|].member.link.writeBuffer == m.link.writeBuffer[1..]
            && t.gone[|h.gone|].member.link.failed
  {
    assert LinkInv(h.sessions[i].link);
    WithoutOne(h.sessions, i);
    assert Find(h.sessions, h.sessions[i].id) == i;
  }

  // ---- receiving ----

  /** The received bytes not read yet, with the logs of all bytes received and all bytes handed out. */
  datatype Inbox = Inbox(pending: Bytes, received: Bytes, returned: Bytes)

  datatype InboxEvent = Receive(data: Bytes) | ReadInto(room: nat)

  function Min(a: nat, b: nat): nat { if a < b then a else b }

  function InboxStep(b: Inbox, e: InboxEvent): Inbox {
    match e
    case Receive(data) => b.(pending := b.pending + data, received := b.received + data)
    case ReadInto(room) =>
      var n := Min(room, |b.pending|);
      b.(pending := b.pending[n..], returned := b.returned + b.pending[..n])
  }

  function InboxRun(events: seq<InboxEvent>): Inbox {
    if events == [] then Inbox([], [], []) else InboxStep(InboxRun(events[..|events| - 1]), events[|events| - 1])
  }

  function AllReceived(events: seq<InboxEvent>): Bytes {
    if events == [] then []
    else
      var last := events[|events| - 1];
      AllReceived(events[..|events| - 1]) + if last.Receive? then last.data else []
  }

  /** A read takes the oldest pending bytes: all of them, or as many as there is room for. */
  lemma ReadTakes(b: Inbox, room: nat)
    ensures var t := InboxStep(b, ReadInto(room));
            var n := |t.returned| - |b.returned|;
            && 0 <= n <= room && n <= |b.pending| && (n == room || n == |b.pending|)
            && t.returned == b.returned + b.pending[..n] && t.pending == b.pending[n..] && t.received == b.received
  {
  }

  lemma InboxStepKeeps(b: Inbox, e: InboxEvent)
    requires b.returned + b.pending == b.received
    ensures var t := InboxStep(b, e);
            && t.returned + t.pending == t.received
            && t.received == if e.Receive? then b.received + e.data else b.received
  {
    match e
    case Receive(data) =>
      assert b.returned + (b.pending + data) == (b.returned + b.pending) + data;
    case ReadInto(room) =>
      var n := Min(room, |b.pending|);
      assert (b.returned + b.pending[..n]) + b.pending[n..] == b.returned + b.pending;
  }

  /** First in, first out: what was handed out, then what is pending, is what was received. */
  lemma {:induction false} ReceiveIsFifo(events: seq<InboxEvent>)
    ensures InboxRun(events).returned + InboxRun(events).pending == InboxRun(events).received == AllReceived(events)
  {
    if events != [] {
      var before := events[..|events| - 1];
      ReceiveIsFifo(before);
      InboxStepKeeps(InboxRun(before), events[|events| - 1]);
      assert AllReceived(before) + [] == AllReceived(before);
      hide InboxStep;
    }
  }
}
