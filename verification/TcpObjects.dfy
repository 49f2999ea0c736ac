/** The session and server objects, with the fields the code updates, proved against TcpServer. */
module TcpObjects {
  import opened ByteStrings
  import opened TcpServer

  class Session {
    const id: nat
    var open: bool
    var writeBuffer: seq<Bytes>
    var outstanding: Outstanding
    ghost var accepted: seq<Bytes>
    ghost var completed: seq<Bytes>
    ghost var failed: bool
    ghost var joinedAt: nat

    ghost function State(): Link
      reads this
    {
      Link(open, writeBuffer, outstanding, accepted, completed, failed)
    }

    ghost function AsMember(): Member
      reads this
    {
      Member(id, joinedAt, State())
    }

    constructor (id: nat)
      ensures State() == NewLink() && this.id == id
    {
      this.id := id;
      open, writeBuffer, outstanding := true, [], NoWrite;
      accepted, completed, failed, joinedAt := [], [], false, 0;
    }

    /** session::write */
    method WriteData(data: Bytes)
      modifies this
      ensures State() == LinkWrite(old(State()), data) && joinedAt == old(joinedAt)
      ensures writeBuffer == if open then old(writeBuffer) + [data] else old(writeBuffer)
      ensures open && old(writeBuffer) == [] ==> outstanding == Writing(data)
      ensures !open || old(writeBuffer) != [] ==> outstanding == old(outstanding)
    {
      if open {
        writeBuffer := writeBuffer + [data];
        accepted := accepted + [data];
        if |writeBuffer| == 1 {
          outstanding := Writing(writeBuffer[0]);
        }
      }
    }

    /** session::handle_write, called when the write under way has ended; a failed session is to be closed. */
    method HandleWrite(error: bool) returns (close: bool)
      requires outstanding.Writing? && writeBuffer != []
      modifies this
      ensures State() == LinkCompletion(old(State()), error) && close == error && joinedAt == old(joinedAt)
      ensures [old(writeBuffer)[0]] + writeBuffer == old(writeBuffer) && accepted == old(accepted)
      ensures completed == if error then old(completed) else old(completed) + [old(outstanding).data]
      ensures outstanding == if error || writeBuffer == [] then NoWrite else Writing(writeBuffer[0])
    {
      completed := if error then completed else completed + [outstanding.data];
      failed := failed || error;
      writeBuffer := writeBuffer[1..];
      outstanding := NoWrite;
      close := error;
      if !error && writeBuffer != [] {
        outstanding := Writing(writeBuffer[0]);
      }
    }
  }

  class Server {
    var sessions: seq<Session>
    var sessionWaitingForAccept: Session
    var nextId: nat
    var pendingData: Bytes
    ghost var gone: seq<Gone>
    ghost var written: seq<Bytes>
    ghost var received: Bytes
    ghost var returned: Bytes

    /** Sessions stand in the order of their acceptance; the one waiting has the next number. */
    ghost predicate Ordered()
      reads this`sessions, this`nextId, this`sessionWaitingForAccept
    {
      && (forall i :: 0 <= i < |sessions| ==> sessions[i].id < nextId)
      && (forall i, j :: 0 <= i < j < |sessions| ==> sessions[i].id < sessions[j].id)
      && sessionWaitingForAccept.id == nextId
    }

    ghost predicate Valid()
      reads this, sessionWaitingForAccept
    {
      Ordered() && sessionWaitingForAccept.State() == NewLink()
    }

    /** So no session is there twice, nor the one waiting. */
    lemma Distinct()
      requires Ordered()
      ensures forall i, j :: 0 <= i < |sessions| && 0 <= j < |sessions| && i != j ==> sessions[i] != sessions[j]
      ensures sessionWaitingForAccept !in sessions
    {
      forall i, j | 0 <= i < |sessions| && 0 <= j < |sessions| && i != j ensures sessions[i] != sessions[j] {
        assert if i < j then sessions[i].id < sessions[j].id else sessions[j].id < sessions[i].id;
      }
    }

    lemma OrderedMembers()
      requires Ordered()
      ensures forall i, j :: 0 <= i < j < |Members()| ==> Members()[i].id < Members()[j].id
    {
    }

    ghost function Members(): seq<Member>
      reads this, sessions
    {
      seq(|sessions|, i requires 0 <= i < |sessions| reads this, sessions => sessions[i].AsMember())
    }

    /** The server as the hub of TcpServer. */
    ghost function View(): Hub
      reads this, sessions
    {
      Hub(Members(), gone, nextId, written)
    }

    ghost function Received(): Inbox
      reads this
    {
      Inbox(pendingData, received, returned)
    }

    constructor ()
      ensures Valid() && View() == HubRun([]) && Received() == InboxRun([])
      ensures fresh(sessionWaitingForAccept)
    {
      sessions, pendingData, nextId := [], [], 0;
      gone, written, received, returned := [], [], [], [];
      sessionWaitingForAccept := new Session(0);
    }

    /** handle_accept, with start_accept preparing the next session. */
    method HandleAccept(error: bool)
      requires Valid()
      modifies this, sessionWaitingForAccept
      ensures Valid() && Received() == old(Received())
      ensures View() == if error then old(View()) else HubStep(old(View()), Accept)
      ensures sessions == if error then old(sessions) else old(sessions) + [old(sessionWaitingForAccept)]
    {
      ghost var before := Members();
      if !error {
        sessionWaitingForAccept.joinedAt := |written|;
        sessions := sessions + [sessionWaitingForAccept];
        nextId := nextId + 1;
      }
      sessionWaitingForAccept := new Session(nextId);
      assert error ==> Members() == before;
      assert !error ==> Members() == before + [Member(nextId - 1, |written|, NewLink())];
    }

    /** server::write: the data goes to every session in turn. */
    method WriteToAll(data: Bytes)
      requires Valid()
      modifies `written, sessions
      ensures Valid()
      ensures View() == HubStep(old(View()), Broadcast(data))
    {
      hide LinkWrite, Ordered;
      written := written + [data];
      ghost var before := Members();
      Distinct();
      var i := 0;
      while i < |sessions|
        invariant 0 <= i <= |sessions| && written == old(written) + [data]
        invariant sessionWaitingForAccept.State() == NewLink()
        invariant forall k :: 0 <= k < i ==>
                    sessions[k].AsMember() == before[k].(link := LinkWrite(before[k].link, data))
        invariant forall k :: i <= k < |sessions| ==> sessions[k].AsMember() == before[k]
      {
        sessions[i].WriteData(data);
        i := i + 1;
      }
      assert Members() == WriteAll(before, data);
    }

    /** closeSession: the list loses the session, if it is there. */
    method CloseSession(ptr: Session)
      requires Valid()
      modifies `sessions
      ensures Valid()
      ensures ptr in old(sessions) ==> Members() == Without(old(Members()), ptr.id)
      ensures ptr !in old(sessions) ==> sessions == old(sessions)
      ensures ptr !in sessions && forall s :: s in old(sessions) && s != ptr ==> s in sessions
    {
      hide Without, Ordered;
      var i := 0;
      while i < |sessions|
        invariant 0 <= i <= |sessions| && sessions == old(sessions)
        invariant forall k :: 0 <= k < i ==> sessions[k] != ptr
      {
        if sessions[i] == ptr {
          Distinct();
          Remove(i);
          break;
        }
        i := i + 1;
      }
    }

    /** The i-th session leaves the list. */
    method Remove(i: nat)
      requires Valid() && i < |sessions|
      modifies `sessions
      ensures Valid() && Members() == Without(old(Members()), old(sessions[i].id))
      ensures sessions == old(sessions)[..i] + old(sessions)[i + 1..]
    {
      ghost var before := Members();
      OrderedMembers();
      WithoutOne(before, i);
      sessions := sessions[..i] + sessions[i + 1..];
      hide Without;
      assert Members() == before[..i] + before[i + 1..];
    }

    /** handle_write as the server sees it: one session's queue moves on. */
    method CompleteWrite(ghost k: nat, s: Session, error: bool) returns (close: bool)
      requires Valid() && k < |sessions| && s == sessions[k] && s.outstanding.Writing? && s.writeBuffer != []
      modifies s
      ensures Valid() && close == error
      ensures Members() == old(Members())[k := old(s.AsMember()).(link := LinkCompletion(old(s.State()), error))]
    {
      hide LinkCompletion, Ordered;
      ghost var before := Members();
      Distinct();
      close := s.HandleWrite(error);
      assert Members() == before[k := s.AsMember()];
    }

    /** The completion of a session's write: handle_write, which closes the session if it failed. */
    method WriteEnded(s: Session, error: bool)
      requires Valid() && s in sessions && s.outstanding.Writing? && s.writeBuffer != []
      modifies `sessions, `gone, s
      ensures Valid()
      ensures View() == HubStep(old(View()), Done(s.id, error))
    {
      hide HubStep, LinkCompletion, Without, Ordered;
      ghost var before := View();
      ghost var k :| 0 <= k < |sessions| && sessions[k] == s;
      OrderedMembers();
      DoneStep(before, k, error);
      ghost var m := s.AsMember().(link := LinkCompletion(s.State(), error));
      var close := CompleteWrite(k, s, error);
      if close {
        CloseSession(s);
        gone := gone + [Gone(m, |written|)];
      }
    }

    /** newSessionData: the buffer is enlarged and filled byte by byte. */
    method NewSessionData(data: Bytes)
      modifies `pendingData, `received
      ensures Received() == InboxStep(old(Received()), Receive(data))
      ensures pendingData == old(pendingData) + data
    {
      received := received + data;
      var oldSize := |pendingData|;
      pendingData := pendingData + seq(|data|, _ => 0);
      var i, newData := oldSize, 0;
      while i != |pendingData|
        invariant oldSize <= i <= |pendingData| == oldSize + |data| && newData == i - oldSize
        invariant pendingData[..i] == old(pendingData) + data[..newData]
        invariant received == old(received) + data
        decreases |pendingData| - i
      {
        pendingData := pendingData[i := data[newData]];
        newData := newData + 1;
        i := i + 1;
      }
      assert data[..newData] == data && pendingData[..i] == pendingData;
    }

    /** server::read: the caller's vector keeps its first index bytes, filled up with zeros if it has fewer, and
        holds what was read after them. Its room is an unsigned difference: an index past its end leaves room
        for everything. */
    method Read(data: Bytes, index: nat) returns (result: Bytes)
      requires |data| < SIZE_T && index < SIZE_T
      modifies `pendingData, `returned
      ensures Received() == InboxStep(old(Received()), ReadInto((|data| - index) % SIZE_T))
      ensures index <= |result| && result[..index] == Resized(data, index)
      ensures old(returned) + result[index..] == returned
      ensures var n, room := |result| - index, (|data| - index) % SIZE_T;
              && n <= room && n <= |old(pendingData)| && (n == room || n == |old(pendingData)|)
              && result[index..] == old(pendingData)[..n] && pendingData == old(pendingData)[n..]
    {
      var numRead := Min((|data| - index) % SIZE_T, |pendingData|);
      result := Resized(data, index + numRead);
      var i, j := index, 0;
      while i != |result|
        invariant index <= i <= |result| == index + numRead && j == i - index
        invariant result[..i] == Resized(data, index) + pendingData[..j]
        decreases |result| - i
      {
        result := result[i := pendingData[j]];
        j := j + 1;
        i := i + 1;
      }
      assert result[..i] == result;
      returned := returned + pendingData[..numRead];
      pendingData := pendingData[numRead..];
    }
  }

  const SIZE_T: nat := 0x1_0000_0000_0000_0000

  /** std::vector::resize. */
  function Resized(data: Bytes, size: nat): (r: Bytes)
    ensures |r| == size
  {
    if size <= |data| then data[..size] else data + seq(size - |data|, _ => 0)
  }

  /** A completion on the hub: the i-th session is the one with its id, and which link a leaving session
      holds does not matter to the others. */
  lemma DoneStep(h: Hub, i: nat, error: bool)
    requires i < |h.sessions| && forall j, k :: 0 <= j < k < |h.sessions| ==> h.sessions[j].id < h.sessions[k].id
    requires h.sessions[i].link.outstanding.Writing? && h.sessions[i].link.writeBuffer != []
    ensures var m := h.sessions[i].(link := LinkCompletion(h.sessions[i].link, error));
            HubStep(h, Done(m.id, error)) ==
            (if error then h.(sessions := Without(h.sessions[i := m], m.id), gone := h.gone + [Gone(m, |h.written|)])
             else h.(sessions := h.sessions[i := m]))
  {
    hide LinkCompletion;
    var m := h.sessions[i].(link := LinkCompletion(h.sessions[i].link, error));
    WithoutOne(h.sessions, i);
    WithoutOne(h.sessions[i := m], i);
    assert Find(h.sessions, m.id) == i;
  }
}
