/** The two locks of the TCP server: a write to all sessions takes the lock of the session list and then each
    session's own, a failed completion takes them the other way round. */
module TcpLocks {

  /** The writing thread: away, holding the list's lock before the next session, or inside a session with both. */
  datatype Writer = Away | Holding(next: nat) | Inside(at: nat)

  /** The thread of the callbacks: idle, in handle_write with a session's lock, or in closeSession with both. */
  datatype Handler = Idle | Completing(at: nat, error: bool) | Closing(at: nat)

  datatype State = State(sessions: nat, writer: Writer, handler: Handler)

  datatype Move = WriterMove | HandlerMove(at: nat, error: bool)

  predicate HandlerLocks(h: Handler, session: nat) { !h.Idle? && h.at == session }

  /** One move; a thread whose lock is taken stays where it is. */
  function WriterNext(s: State): State {
    match s.writer
    case Away => if s.handler.Closing? then s else s.(writer := Holding(0))
    case Holding(k) =>
      if k >= s.sessions then s.(writer := Away)
      else if HandlerLocks(s.handler, k) then s
      else s.(writer := Inside(k))
    case Inside(k) => s.(writer := Holding(k + 1))
  }

  function HandlerNext(s: State, at: nat, error: bool): State {
    match s.handler
    case Idle => if at < s.sessions && s.writer != Inside(at) then s.(handler := Completing(at, error)) else s
    case Completing(k, failed) =>
      if !failed then s.(handler := Idle)
      else if s.writer.Away? then s.(handler := Closing(k))
      else s
    case Closing(k) => if s.sessions > 0 then s.(handler := Idle, sessions := s.sessions - 1) else s
  }

  function Next(s: State, m: Move): State {
    match m
    case WriterMove => WriterNext(s)
    case HandlerMove(at, error) => HandlerNext(s, at, error)
  }

  function Run(s: State, moves: seq<Move>): State {
    if moves == [] then s else Next(Run(s, moves[..|moves| - 1]), moves[|moves| - 1])
  }

  function Start(sessions: nat): State { State(sessions, Away, Idle) }

  /** Nobody holds a lock twice. */
  predicate Exclusive(s: State) {
    && (s.writer.Inside? ==> s.writer.at < s.sessions && !HandlerLocks(s.handler, s.writer.at))
    && (s.handler.Closing? ==> s.writer.Away?)
    && (!s.handler.Idle? ==> s.handler.at < s.sessions)
  }

  lemma NextKeepsExclusive(s: State, m: Move)
    requires Exclusive(s)
    ensures Exclusive(Next(s, m))
  {
  }

  lemma {:induction false} RunKeepsExclusive(sessions: nat, moves: seq<Move>)
    ensures Exclusive(Run(Start(sessions), moves))
  {
    if moves != [] {
      RunKeepsExclusive(sessions, moves[..|moves| - 1]);
      NextKeepsExclusive(Run(Start(sessions), moves[..|moves| - 1]), moves[|moves| - 1]);
    }
  }

  ghost predicate Stuck(s: State) { forall m :: Next(s, m) == s }

  /** Each of the two holds the lock the other one waits for. */
  predicate Deadlocked(s: State) {
    s.writer.Holding? && s.writer.next < s.sessions && s.handler == Completing(s.writer.next, true)
  }

  /** In every run, no thread can move if and only if the completion of a write to the very session the writer is
      about to write to has failed. */
  lemma StuckIff(sessions: nat, moves: seq<Move>)
    ensures var s := Run(Start(sessions), moves); Stuck(s) <==> Deadlocked(s)
  {
    RunKeepsExclusive(sessions, moves);
    var s := Run(Start(sessions), moves);
    assert Stuck(s) ==> Next(s, WriterMove) == s && Next(s, HandlerMove(0, false)) == s;
    assert Stuck(s) ==> s.handler.Idle? || Next(s, HandlerMove(s.handler.at, false)) == s;
  }

  /** It is reached with any number of sessions: a completion fails while the writer sets out. */
  lemma DeadlockIsReached(sessions: nat)
    requires sessions > 0
    ensures Deadlocked(Run(Start(sessions), [HandlerMove(0, true), WriterMove]))
  {
    var moves := [HandlerMove(0, true), WriterMove];
    assert moves[..1] == [HandlerMove(0, true)] && moves[..1][..0] == [];
    var s := Next(Start(sessions), HandlerMove(0, true));
    assert Run(Start(sessions), moves[..1]) == s;
  }

  predicate Fails(m: Move) { m.HandlerMove? && m.error }

  lemma {:induction false} NoFailureNoError(sessions: nat, moves: seq<Move>)
    requires forall i :: 0 <= i < |moves| ==> !Fails(moves[i])
    ensures var h := Run(Start(sessions), moves).handler; !h.Closing? && (h.Completing? ==> !h.error)
  {
    if moves != [] { NoFailureNoError(sessions, moves[..|moves| - 1]); }
  }

  /** Only a failed completion leads there: without one some thread can always move. */
  lemma OnlyFailureDeadlocks(sessions: nat, moves: seq<Move>)
    requires forall i :: 0 <= i < |moves| ==> !Fails(moves[i])
    ensures !Stuck(Run(Start(sessions), moves))
  {
    StuckIff(sessions, moves);
    NoFailureNoError(sessions, moves);
  }

  /** A completion has failed at a session the writer has not passed. */
  predicate Doomed(s: State) {
    && s.handler.Completing? && s.handler.error && s.handler.at < s.sessions
    && (match s.writer
        case Away => false
        case Holding(k) => k <= s.handler.at
        case Inside(k) => k < s.handler.at)
  }

  /** The writer's moves up to that session. */
  function Distance(s: State): int {
    if s.handler.Idle? then 0
    else
      match s.writer
      case Away => 0
      case Holding(k) => 2 * (s.handler.at - k)
      case Inside(k) => 2 * (s.handler.at - k) - 1
  }

  /** From there every schedule ends in the deadlock: each move that does anything brings it nearer, and only
      the deadlock itself has none. */
  lemma DoomedDeadlocks(s: State, m: Move)
    requires Doomed(s)
    ensures Doomed(Next(s, m)) && (Next(s, m) == s || 0 <= Distance(Next(s, m)) < Distance(s))
    ensures Next(s, WriterMove) == s <==> Deadlocked(s)
  {
  }

  /** A completion that can get its locks ends: one move, or two of a failed one, which takes its session off the
      list. */
  lemma CompletionEnds(s: State, at: nat, error: bool)
    requires Exclusive(s) && s.handler.Idle? && at < s.sessions && s.writer.Away?
    ensures var begun := Next(s, HandlerMove(at, error));
            var moved := Next(begun, HandlerMove(at, error));
            if error then Next(moved, HandlerMove(at, error)) == s.(sessions := s.sessions - 1) else moved == s
  {
  }

  /** The writer's moves from the given session to the end of the list. */
  function WriterMoves(n: nat): seq<Move> { if n == 0 then [] else [WriterMove] + WriterMoves(n - 1) }

  lemma {:induction false} RunFirst(s: State, moves: seq<Move>)
    requires moves != []
    ensures Run(s, moves) == Run(Next(s, moves[0]), moves[1..])
  {
    hide Next;
    var last := |moves| - 1;
    if last > 0 {
      RunFirst(s, moves[..last]);
      assert moves[..last][1..] == moves[1..][..last - 1];
    }
  }

  /** Undisturbed, the writer goes through every session from where it is, and lets go. */
  lemma {:induction false} WriterPasses(s: State)
    requires s.handler.Idle? && s.writer.Holding? && s.writer.next <= s.sessions
    ensures Run(s, WriterMoves(2 * (s.sessions - s.writer.next) + 1)) == s.(writer := Away)
    decreases s.sessions - s.writer.next
  {
    var k := s.writer.next;
    var moves := WriterMoves(2 * (s.sessions - k) + 1);
    RunFirst(s, moves);
    assert moves[1..] == WriterMoves(2 * (s.sessions - k));
    if k < s.sessions {
      var inside := s.(writer := Inside(k));
      assert Next(s, WriterMove) == inside;
      RunFirst(inside, moves[1..]);
      assert moves[1..][1..] == WriterMoves(2 * (s.sessions - k) - 1);
      WriterPasses(s.(writer := Holding(k + 1)));
    }
  }
}
