/**
 * Starting and stopping the streaming thread of a queue subscription. A run is any interleaving of the
 * atomic steps of a start call, any number of stop calls, and the threads they create.
 */
module Streaming {
  import opened Wrappers

  type Id = nat

  const BUFFER_SIZE: nat := 10

  /** Where a streaming thread is: alive from its start until it leaves the loop. */
  datatype Thread = Unstarted | AtGuard | Dequeuing | Handling(rest: seq<Id>) | Committing | Terminated

  datatype StartCall = NoStart | Created(thread: nat) | Installed(thread: nat)

  /**
   * The subscription, its callers, and the database queue with one open transaction. Of several stop calls at
   * most one takes a given thread out and joins it; the others find none and return at once.
   */
  datatype System = System(
    current: Option<nat>, threads: seq<Thread>, starting: StartCall, joining: set<nat>,
    available: seq<Id>, pending: seq<Id>, handled: seq<Id>, removed: seq<Id>)

  function Initial(queue: seq<Id>): System {
    System(None, [], NoStart, {}, queue, [], [], [])
  }

  datatype Move =
    | Create | CompareAndSet | StartThread
    | Swap | Join(thread: nat)
    | Guard(thread: nat)
    | Dequeue(thread: nat, count: nat)
    | Handle(thread: nat)
    | Commit(thread: nat, succeeds: bool)

  predicate InBody(t: Thread) { t.Dequeuing? || t.Handling? || t.Committing? }
  predicate Alive(t: Thread) { t.AtGuard? || InBody(t) }

  /** The compare-and-set of a start call succeeds. */
  predicate Installs(s: System, m: Move) {
    m.CompareAndSet? && s.starting.Created? && s.current.None?
  }

  /** A stop is still waiting for a thread that is inside the loop body. */
  predicate JoiningBody(s: System) {
    exists i :: i in s.joining && i < |s.threads| && InBody(s.threads[i])
  }

  /** Any step, as long as no start installs its thread while a stop waits for one inside the loop body. */
  predicate Allowed(s: System, m: Move) {
    !(Installs(s, m) && JoiningBody(s))
  }

  /** A single controller calls start and stop one after the other. */
  predicate OneController(s: System, m: Move) {
    && (m.CompareAndSet? || m.StartThread? || m.Create? ==> s.joining == {})
    && (m.Swap? || m.Join? ==> s.starting.NoStart?)
  }

  function SetThread(s: System, i: nat, t: Thread): System
    requires i < |s.threads|
  {
    s.(threads := s.threads[i := t])
  }

  /** A step that is not enabled changes nothing. */
  function Next(s: System, m: Move): System {
    match m
    case Create =>
      if !s.starting.NoStart? then s
      else s.(threads := s.threads + [Unstarted], starting := Created(|s.threads|))
    case CompareAndSet =>
      if !s.starting.Created? then s
      else if s.current.Some? then s.(starting := NoStart)
      else s.(current := Some(s.starting.thread), starting := Installed(s.starting.thread))
    case StartThread =>
      if !s.starting.Installed? || s.starting.thread >= |s.threads| then s
      else SetThread(s, s.starting.thread, AtGuard).(starting := NoStart)
    case Swap =>
      s.(current := None, joining := s.joining + if s.current.Some? then {s.current.value} else {})
    case Join(i) =>
      if i !in s.joining || i >= |s.threads| || Alive(s.threads[i]) then s else s.(joining := s.joining - {i})
    case Guard(i) =>
      if i >= |s.threads| || !s.threads[i].AtGuard? then s
      else SetThread(s, i, if s.current == Some(i) then Dequeuing else Terminated)
    case Dequeue(i, count) =>
      if i >= |s.threads| || !s.threads[i].Dequeuing? then s
      else
        var n := if count > BUFFER_SIZE then BUFFER_SIZE else count;
        if n == 0 || n > |s.available| then SetThread(s, i, AtGuard)
        else SetThread(s, i, Handling(s.available[..n])).(available := s.available[n..],
                                                          pending := s.pending + s.available[..n])
    case Handle(i) =>
      if i >= |s.threads| || !s.threads[i].Handling? then s
      else if s.threads[i].rest == [] then SetThread(s, i, Committing)
      else SetThread(s, i, Handling(s.threads[i].rest[1..])).(handled := s.handled + [s.threads[i].rest[0]])
    case Commit(i, succeeds) =>
      if i >= |s.threads| || !s.threads[i].Committing? then s
      else if succeeds then SetThread(s, i, AtGuard).(removed := s.removed + s.pending, pending := [])
      else SetThread(s, i, AtGuard)
  }

  function Run(s: System, moves: seq<Move>): System {
    if moves == [] then s else Next(Run(s, moves[..|moves| - 1]), moves[|moves| - 1])
  }

  ghost predicate AllAllowed(s: System, moves: seq<Move>) {
    forall k :: 0 <= k < |moves| ==> Allowed(Run(s, moves[..k]), moves[k])
  }

  // ----- invariant -----

  /** At most one thread is in the loop body, and it is the installed one or one that a stop is waiting for. */
  ghost predicate Control(s: System) {
    && (forall i :: i in s.joining ==> i < |s.threads| && s.current != Some(i))
    && (JoiningBody(s) ==> s.current.None?)
    && (s.current.Some? ==> s.current.value < |s.threads|)
    && (s.starting.Created? ==> s.starting.thread < |s.threads| && s.threads[s.starting.thread].Unstarted?
                                && s.current != Some(s.starting.thread) && s.starting.thread !in s.joining)
    && (s.starting.Installed? ==> s.starting.thread < |s.threads| && s.threads[s.starting.thread].Unstarted?)
    && (forall i :: 0 <= i < |s.threads| && InBody(s.threads[i]) ==> s.current == Some(i) || i in s.joining)
    && (forall i, j :: 0 <= i < j < |s.threads| ==> !(InBody(s.threads[i]) && InBody(s.threads[j])))
  }

  /** Whether exactly these messages of the open transaction have not reached the handler yet. */
  ghost predicate Unhandled(s: System, rest: seq<Id>) {
    && (forall i :: 0 <= i < |s.threads| && s.threads[i].Handling? ==> s.threads[i].rest == rest)
    && ((forall i :: 0 <= i < |s.threads| ==> !s.threads[i].Handling?) ==> rest == [])
    && |rest| <= |s.pending|
    && s.handled + rest == s.removed + s.pending
  }

  ghost predicate Conserved(s: System, queue: seq<Id>) {
    s.removed + s.pending + s.available == queue
  }

  ghost predicate Inv(s: System, queue: seq<Id>) {
    Control(s) && Conserved(s, queue) && exists rest :: Unhandled(s, rest)
  }

  lemma AtMostOneInBody(s: System, i: nat, j: nat)
    requires Control(s) && i < |s.threads| && j < |s.threads|
    requires InBody(s.threads[i]) && InBody(s.threads[j])
    ensures i == j
  {
  }

  lemma ControlCallers(s: System, m: Move)
    requires Control(s) && Allowed(s, m)
    requires m.Create? || m.CompareAndSet? || m.StartThread? || m.Swap? || m.Join?
    ensures Control(Next(s, m))
  {
  }

  /** A step of a streaming thread changes its own place only, and enters the body only as the installed one. */
  lemma ThreadStep(s: System, m: Move, i: nat)
    requires m == Guard(i) || (m.Dequeue? && m.thread == i) || m == Handle(i) || (m.Commit? && m.thread == i)
    ensures var r := Next(s, m);
            && r.current == s.current && r.starting == s.starting && r.joining == s.joining
            && (r.threads == s.threads
                || (i < |s.threads| && Alive(s.threads[i]) && !r.threads[i].Unstarted?
                    && r.threads == s.threads[i := r.threads[i]]
                    && (InBody(r.threads[i]) ==> InBody(s.threads[i]) || s.current == Some(i))))
  {
  }

  lemma ControlThread(s: System, m: Move, i: nat)
    requires Control(s)
    requires m == Guard(i) || (m.Dequeue? && m.thread == i) || m == Handle(i) || (m.Commit? && m.thread == i)
    ensures Control(Next(s, m))
  {
    hide Next;
    ThreadStep(s, m, i);
  }

  lemma ControlNext(s: System, m: Move)
    requires Control(s) && Allowed(s, m)
    ensures Control(Next(s, m))
  {
    hide *;
    match m
    case Guard(i) => ControlThread(s, m, i);
    case Dequeue(i, _) => ControlThread(s, m, i);
    case Handle(i) => ControlThread(s, m, i);
    case Commit(i, _) => ControlThread(s, m, i);
    case _ => ControlCallers(s, m);
  }

  lemma ConservedNext(s: System, m: Move, queue: seq<Id>)
    requires Conserved(s, queue)
    ensures Conserved(Next(s, m), queue)
  {
    var r := Next(s, m);
    if m.Dequeue? && r.available != s.available {
      var n := |s.available| - |r.available|;
      assert r.available == s.available[n..] && r.pending == s.pending + s.available[..n] && r.removed == s.removed;
      hide Next;
      assert s.removed + (s.pending + s.available[..n]) + s.available[n..] == s.removed + s.pending + s.available;
    } else {
      assert s.removed + s.pending + [] == s.removed + s.pending;
    }
  }

  lemma UnhandledDequeue(s: System, i: nat, count: nat, rest: seq<Id>) returns (rest': seq<Id>)
    requires Control(s) && Unhandled(s, rest)
    ensures Unhandled(Next(s, Dequeue(i, count)), rest')
  {
    rest' := rest;
    var m := Dequeue(i, count);
    if i < |s.threads| && s.threads[i].Dequeuing? {
      NoneHandling(s, i, rest);
      var n := if count > BUFFER_SIZE then BUFFER_SIZE else count;
      if n != 0 && n <= |s.available| {
        rest' := s.available[..n];
        HandlingOnly(s, Next(s, m), i, rest');
        hide Control, InBody;
        assert s.handled + [] == s.handled;
        assert s.removed + (s.pending + rest') == (s.removed + s.pending) + rest';
      } else {
        UnhandledFrame(s, m, i, rest);
      }
    }
  }

  lemma UnhandledHandle(s: System, i: nat, rest: seq<Id>) returns (rest': seq<Id>)
    requires Control(s) && Unhandled(s, rest)
    ensures Unhandled(Next(s, Handle(i)), rest')
  {
    rest' := rest;
    if i < |s.threads| && s.threads[i].Handling? {
      assert s.threads[i].rest == rest;
      if rest == [] {
        UnhandledFrame(s, Handle(i), i, rest);
      } else {
        rest' := rest[1..];
        HandlingOnly(s, Next(s, Handle(i)), i, rest');
        hide Control, InBody;
        assert (s.handled + [rest[0]]) + rest[1..] == s.handled + rest;
      }
    }
  }

  lemma UnhandledCommit(s: System, i: nat, succeeds: bool, rest: seq<Id>)
    requires Control(s) && Unhandled(s, rest)
    ensures Unhandled(Next(s, Commit(i, succeeds)), rest)
  {
    if i < |s.threads| && s.threads[i].Committing? {
      NoneHandling(s, i, rest);
      UnhandledFrame(s, Commit(i, succeeds), i, rest);
      hide Control, InBody;
      assert (s.removed + s.pending) + [] == s.removed + s.pending;
    }
  }

  /** Only the thread in the body moves messages, so the messages not yet handled are its own. */
  lemma UnhandledNext(s: System, m: Move, rest: seq<Id>) returns (rest': seq<Id>)
    requires Control(s) && Unhandled(s, rest)
    ensures Unhandled(Next(s, m), rest')
  {
    hide *;
    rest' := rest;
    match m
    case Guard(i) => UnhandledFrame(s, m, i, rest);
    case Dequeue(i, count) => rest' := UnhandledDequeue(s, i, count, rest);
    case Handle(i) => rest' := UnhandledHandle(s, i, rest);
    case Commit(i, succeeds) => UnhandledCommit(s, i, succeeds, rest);
    case _ => UnhandledOthers(s, m, rest);
  }

  /** While a thread in the body is not handling messages, none is. */
  lemma NoneHandling(s: System, i: nat, rest: seq<Id>)
    requires Control(s) && Unhandled(s, rest) && i < |s.threads| && InBody(s.threads[i]) && !s.threads[i].Handling?
    ensures rest == [] && forall j :: 0 <= j < |s.threads| ==> !s.threads[j].Handling?
  {
    forall j | 0 <= j < |s.threads| ensures !s.threads[j].Handling? {
      if s.threads[j].Handling? {
        AtMostOneInBody(s, i, j);
      }
    }
  }

  lemma HandlingOnly(s: System, r: System, i: nat, rest: seq<Id>)
    requires Control(s) && i < |s.threads| && InBody(s.threads[i])
    requires r.threads == s.threads[i := Handling(rest)]
    ensures forall j :: 0 <= j < |r.threads| && r.threads[j].Handling? ==> r.threads[j].rest == rest
    ensures r.threads[i].Handling?
  {
    forall j | 0 <= j < |r.threads| && r.threads[j].Handling? ensures r.threads[j].rest == rest {
      if j != i {
        AtMostOneInBody(s, i, j);
      }
    }
  }

  /** A thread that stops handling, or never did, leaves nothing behind. */
  lemma UnhandledFrame(s: System, m: Move, i: nat, rest: seq<Id>)
    requires Control(s) && Unhandled(s, rest)
    requires m == Guard(i) || m.Dequeue? || m.Handle? || m.Commit?
    requires m.Dequeue? ==> m.thread == i && rest == [] && Next(s, m).pending == s.pending
    requires m.Handle? ==> m.thread == i && rest == []
    requires m.Commit? ==> m.thread == i && rest == [] && forall j :: 0 <= j < |s.threads| ==> !s.threads[j].Handling?
    ensures Unhandled(Next(s, m), rest)
  {
    var r := Next(s, m);
    if i < |s.threads| {
      if !(forall j :: 0 <= j < |s.threads| ==> !s.threads[j].Handling?) && rest != [] {
        var j :| 0 <= j < |s.threads| && s.threads[j].Handling?;
        assert m == Guard(i);
        assert r.threads[j].Handling?;
      }
    }
  }

  lemma UnhandledOthers(s: System, m: Move, rest: seq<Id>)
    requires Unhandled(s, rest)
    requires m.Create? || m.CompareAndSet? || m.StartThread? || m.Swap? || m.Join?
    requires Control(s)
    ensures Unhandled(Next(s, m), rest)
  {
    var r := Next(s, m);
    if (forall i :: 0 <= i < |r.threads| ==> !r.threads[i].Handling?) {
      forall i | 0 <= i < |s.threads| ensures !s.threads[i].Handling? {
        assert r.threads[i].Handling? <==> s.threads[i].Handling?;
      }
    }
  }

  lemma {:induction false} InvAlways(queue: seq<Id>, moves: seq<Move>)
    requires AllAllowed(Initial(queue), moves)
    ensures Inv(Run(Initial(queue), moves), queue)
    decreases |moves|
  {
    if moves == [] {
      assert Unhandled(Initial(queue), []);
    } else {
      var n := |moves| - 1;
      forall k | 0 <= k < n ensures moves[..n][..k] == moves[..k] && moves[..n][k] == moves[k] {}
      assert AllAllowed(Initial(queue), moves[..n]);
      InvAlways(queue, moves[..n]);
      var s := Run(Initial(queue), moves[..n]);
      assert Allowed(s, moves[n]);
      var rest :| Unhandled(s, rest);
      ControlNext(s, moves[n]);
      ConservedNext(s, moves[n], queue);
      var rest' := UnhandledNext(s, moves[n], rest);
    }
  }

  // ----- main results -----

  /** At every moment at most one thread is inside the loop body. */
  lemma {:induction false} OneThreadInBody(queue: seq<Id>, moves: seq<Move>, i: nat, j: nat)
    requires AllAllowed(Initial(queue), moves)
    requires var t := Run(Initial(queue), moves).threads;
             i < |t| && j < |t| && InBody(t[i]) && InBody(t[j])
    ensures i == j
  {
    InvAlways(queue, moves);
    AtMostOneInBody(Run(Initial(queue), moves), i, j);
  }

  lemma AllowedPrefix(queue: seq<Id>, moves: seq<Move>, n: nat)
    requires AllAllowed(Initial(queue), moves) && n <= |moves|
    ensures AllAllowed(Initial(queue), moves[..n])
  {
    forall k | 0 <= k < n ensures moves[..n][..k] == moves[..k] && moves[..n][k] == moves[k] {}
  }

  /** No thread is installed, and no stop is still waiting for one inside the loop body. */
  predicate StopReturned(s: System) { s.current.None? && !JoiningBody(s) }

  predicate SameMessages(s: System, r: System) {
    s.available == r.available && s.pending == r.pending && s.handled == r.handled && s.removed == r.removed
  }

  /**
   * After a stop has returned, no thread is inside the loop body and no message is dequeued, handled or
   * committed until a start installs a thread.
   */
  lemma {:induction false} QuietAfterStop(queue: seq<Id>, moves: seq<Move>, later: seq<Move>)
    requires AllAllowed(Initial(queue), moves + later)
    requires StopReturned(Run(Initial(queue), moves))
    requires forall m :: m in later ==> !m.CompareAndSet?
    ensures var s, r := Run(Initial(queue), moves), Run(Initial(queue), moves + later);
            && SameMessages(s, r) && StopReturned(r)
            && forall i :: 0 <= i < |r.threads| ==> !InBody(r.threads[i])
    decreases |later|
  {
    hide AllAllowed, Run, Next, InBody;
    if later == [] {
      assert moves + later == moves;
      InvAlways(queue, moves);
      NoneInBody(Run(Initial(queue), moves));
    } else {
      var front, last := moves + later[..|later| - 1], later[|later| - 1];
      assert moves + later == front + [last] && (front + [last])[..|front|] == front;
      RunAppend(Initial(queue), front, last);
      AllowedPrefix(queue, moves + later, |front|);
      QuietAfterStop(queue, moves, later[..|later| - 1]);
      InvAlways(queue, front);
      InvAlways(queue, moves + later);
      assert last in later;
      QuietStep(Run(Initial(queue), front), last);
      NoneInBody(Run(Initial(queue), moves + later));
    }
  }

  lemma NoneInBody(s: System)
    requires Control(s) && StopReturned(s)
    ensures forall i :: 0 <= i < |s.threads| ==> !InBody(s.threads[i])
  {
    hide InBody;
  }

  lemma QuietStep(s: System, m: Move)
    requires Control(s) && StopReturned(s) && !m.CompareAndSet?
    ensures SameMessages(s, Next(s, m)) && StopReturned(Next(s, m))
  {
  }

  /** Every message that a commit removes was handed to the handler before, in queue order and none twice. */
  lemma {:induction false} RemovedWereHandled(queue: seq<Id>, moves: seq<Move>)
    requires AllAllowed(Initial(queue), moves)
    ensures var s := Run(Initial(queue), moves);
            && s.removed <= s.handled <= queue
            && s.removed + s.pending + s.available == queue
  {
    InvAlways(queue, moves);
    var s := Run(Initial(queue), moves);
    var rest :| Unhandled(s, rest);
    hide Run;
    assert s.handled + rest == s.removed + s.pending;
    assert s.handled <= s.removed + s.pending <= queue;
    assert s.removed == (s.removed + s.pending)[..|s.removed|] == s.handled[..|s.removed|];
  }

  // ----- calls return -----

  /** A start call installs its thread and then starts it, or finds one installed and ends without a thread. */
  lemma StartCallEnds(s: System)
    requires Control(s) && s.starting.Created?
    ensures var r := Next(s, CompareAndSet);
            if s.current.Some? then r == s.(starting := NoStart)
            else r.current == Some(s.starting.thread) && Next(r, StartThread).starting.NoStart?
                 && Next(r, StartThread).threads[s.starting.thread].AtGuard?
  {
  }

  /** A stop call returns: at once for a thread not alive, else when the thread has come to its guard. */
  lemma {:induction false} StopCallReturns(s: System, i: nat)
    requires Control(s) && i in s.joining && (s.threads[i].AtGuard? || !Alive(s.threads[i]))
    ensures i !in Run(s, [] + [Guard(i)] + [Join(i)]).joining
  {
    RunAppend(s, [], Guard(i));
    RunAppend(s, [] + [Guard(i)], Join(i));
    hide Run;
  }

  // ----- one round of the loop -----

  /**
   * In every reachable state: after a commit that succeeds nothing is pending, and exactly the messages handed to
   * the handler so far have been removed; after one that fails all is as it was, and the thread goes on.
   */
  lemma {:induction false} CommitSettles(queue: seq<Id>, moves: seq<Move>, i: nat, succeeds: bool)
    requires AllAllowed(Initial(queue), moves)
    requires i < |Run(Initial(queue), moves).threads| && Run(Initial(queue), moves).threads[i].Committing?
    ensures var s := Run(Initial(queue), moves);
            var r := Next(s, Commit(i, succeeds));
            && r.threads[i].AtGuard? && r.handled == s.handled && r.available == s.available
            && (succeeds ==> r.pending == [] && r.removed == r.handled && r.handled + r.available == queue)
            && (!succeeds ==> r.pending == s.pending && r.removed == s.removed)
  {
    InvAlways(queue, moves);
    var s := Run(Initial(queue), moves);
    var rest :| Unhandled(s, rest);
    hide Run;
    NoneHandling(s, i, rest);
    assert s.handled + [] == s.handled;
  }

  /** A dequeue takes the oldest messages, as many as asked for but no more than the buffer holds, or none. */
  lemma DequeueTakes(s: System, i: nat, count: nat)
    requires i < |s.threads| && s.threads[i].Dequeuing?
    ensures var r := Next(s, Dequeue(i, count));
            var n := |s.available| - |r.available|;
            && 0 <= n <= BUFFER_SIZE && n <= count && r.handled == s.handled && r.removed == s.removed
            && s.available[..n] + r.available == s.available && r.pending == s.pending + s.available[..n]
            && (n == 0 <==> count == 0 || (|s.available| < count && |s.available| < BUFFER_SIZE))
            && r.threads[i] == if n == 0 then AtGuard else Handling(s.available[..n])
  {
    assert s.pending + [] == s.pending;
  }

  function Handles(i: nat, n: nat): (moves: seq<Move>)
    ensures |moves| == n
  {
    seq(n, _ => Handle(i))
  }

  /** The thread after the first n messages in hand have been handed on. */
  function Handled(s: System, i: nat, n: nat): System
    requires i < |s.threads| && s.threads[i].Handling? && n <= |s.threads[i].rest|
  {
    SetThread(s, i, Handling(s.threads[i].rest[n..])).(handled := s.handled + s.threads[i].rest[..n])
  }

  lemma HandledNext(s: System, i: nat, n: nat)
    requires i < |s.threads| && s.threads[i].Handling? && n < |s.threads[i].rest|
    ensures Next(Handled(s, i, n), Handle(i)) == Handled(s, i, n + 1)
  {
    var rest := s.threads[i].rest;
    var t := Handled(s, i, n);
    assert t.threads[i] == Handling(rest[n..]) && rest[n..][0] == rest[n] && rest[n..][1..] == rest[n + 1..];
    assert t.handled + [rest[n]] == s.handled + rest[..n + 1];
    assert t.threads[i := Handling(rest[n + 1..])] == s.threads[i := Handling(rest[n + 1..])];
  }

  lemma {:induction false} HandleSome(s: System, i: nat, n: nat)
    requires i < |s.threads| && s.threads[i].Handling? && n <= |s.threads[i].rest|
    ensures Run(s, Handles(i, n)) == Handled(s, i, n)
    decreases n
  {
    hide Next, Run, Handles;
    if n == 0 {
      var rest := s.threads[i].rest;
      assert rest[0..] == rest && s.threads[i := Handling(rest)] == s.threads && s.handled + rest[..0] == s.handled;
      assert Handles(i, 0) == [];
      RunAppend(s, [], Handle(i));
    } else {
      HandlesAppend(i, n - 1);
      RunAppend(s, Handles(i, n - 1), Handle(i));
      HandleSome(s, i, n - 1);
      HandledNext(s, i, n - 1);
    }
  }

  lemma HandlesAppend(i: nat, n: nat)
    ensures Handles(i, n + 1) == Handles(i, n) + [Handle(i)]
  {
  }

  /** A thread left to itself takes n messages, hands each of them on, and removes them with all that was pending. */
  lemma {:induction false} RoundRemoves(s: System, i: nat, n: nat)
    requires i < |s.threads| && s.threads[i].Dequeuing? && 0 < n <= BUFFER_SIZE && n <= |s.available|
    ensures Run(s, [] + [Dequeue(i, n)] + Handles(i, n) + [Handle(i)] + [Commit(i, true)])
            == SetThread(s, i, AtGuard).(available := s.available[n..], pending := [],
                                         handled := s.handled + s.available[..n],
                                         removed := s.removed + (s.pending + s.available[..n]))
  {
    var m := [] + [Dequeue(i, n)];
    var s1 := Next(s, Dequeue(i, n));
    RunAppend(s, [], Dequeue(i, n));
    RunConcat(s, m, Handles(i, n));
    HandleSome(s1, i, n);
    RunAppend(s, m + Handles(i, n), Handle(i));
    RunAppend(s, m + Handles(i, n) + [Handle(i)], Commit(i, true));
    hide Run, Handles;
    assert s1.threads[i].rest == s.available[..n];
    assert s.available[..n][n..] == [] && s.available[..n][..n] == s.available[..n];
  }

  lemma {:induction false} RunConcat(s: System, a: seq<Move>, b: seq<Move>)
    ensures Run(s, a + b) == Run(Run(s, a), b)
    decreases |b|
  {
    if b == [] {
      assert a + b == a;
    } else {
      assert (a + b)[..|a + b| - 1] == a + b[..|b| - 1];
      RunConcat(s, a, b[..|b| - 1]);
    }
  }

  /** With one controller no start ever overlaps a stop, so the condition holds on every run. */
  lemma OneControllerIsAllowed(s: System, m: Move)
    requires OneController(s, m)
    ensures Allowed(s, m)
  {
  }

  predicate TwoInBody(s: System) {
    exists i, j :: 0 <= i < j < |s.threads| && InBody(s.threads[i]) && InBody(s.threads[j])
  }

  /** Some allowed steps lead from here to two threads inside the loop body. */
  ghost predicate CanLeadToTwo(s: System) {
    exists later :: AllAllowed(s, later) && TwoInBody(Run(s, later))
  }

  lemma {:induction false} ControlAlways(s: System, moves: seq<Move>)
    requires Control(s) && AllAllowed(s, moves)
    ensures Control(Run(s, moves))
    decreases |moves|
  {
    hide AllAllowed, Control, Allowed, Next;
    if moves != [] {
      AllowedFront(s, moves);
      ControlAlways(s, moves[..|moves| - 1]);
      ControlNext(Run(s, moves[..|moves| - 1]), moves[|moves| - 1]);
    }
  }

  lemma ControlExcludesTwo(s: System)
    requires Control(s)
    ensures !TwoInBody(s)
  {
  }

  lemma BothInBody(s: System, i: nat, j: nat)
    requires i < |s.threads| && j < |s.threads| && i != j && InBody(s.threads[i]) && InBody(s.threads[j])
    ensures TwoInBody(s)
  {
    if i > j {
      BothInBody(s, j, i);
    }
  }

  /** The started thread passes its guard while the joined one is still in the body. */
  lemma InstallWhileJoining(s: System)
    requires Control(s) && Installs(s, CompareAndSet) && JoiningBody(s)
    ensures CanLeadToTwo(Next(s, CompareAndSet))
  {
    var t, r := s.starting.thread, Next(s, CompareAndSet);
    var a := [] + [StartThread];
    var b := a + [Guard(t)];
    RunAppend(r, [], StartThread);
    RunAppend(r, a, Guard(t));
    assert b[..0] == [] && b[..1] == a;
    hide Run;
    var e := Run(r, b);
    assert e == Next(Next(r, StartThread), Guard(t));
    var i :| i in s.joining && i < |s.threads| && InBody(s.threads[i]);
    assert InBody(e.threads[t]) && InBody(e.threads[i]) && t != i;
    assert TwoInBody(e) by { BothInBody(e, t, i); }
    assert AllAllowed(r, b) && TwoInBody(e);
  }

  lemma {:induction false} RunAppend(s: System, moves: seq<Move>, m: Move)
    ensures Run(s, []) == s && Run(s, moves + [m]) == Next(Run(s, moves), m)
  {
    assert (moves + [m])[..|moves|] == moves;
  }

  /**
   * In every reachable state, a start that installs its thread can lead to two threads inside the loop body
   * if and only if a stop is waiting for a thread that is inside it. A stop that waits for a thread on its way
   * to the guard, or for one not started yet, does no harm.
   */
  lemma {:induction false} InstallUnsafeIffJoiningBody(queue: seq<Id>, moves: seq<Move>)
    requires AllAllowed(Initial(queue), moves)
    requires Installs(Run(Initial(queue), moves), CompareAndSet)
    ensures var s := Run(Initial(queue), moves);
            CanLeadToTwo(Next(s, CompareAndSet)) <==> JoiningBody(s)
  {
    InvAlways(queue, moves);
    var s := Run(Initial(queue), moves);
    hide Run, AllAllowed, Control, TwoInBody, Next;
    if JoiningBody(s) {
      InstallWhileJoining(s);
    } else {
      ControlNext(s, CompareAndSet);
      forall later | AllAllowed(Next(s, CompareAndSet), later)
        ensures !TwoInBody(Run(Next(s, CompareAndSet), later))
      {
        ControlAlways(Next(s, CompareAndSet), later);
        ControlExcludesTwo(Run(Next(s, CompareAndSet), later));
      }
    }
  }

  predicate NoInstall(moves: seq<Move>) { forall m :: m in moves ==> !m.CompareAndSet? }

  /** Until a start installs a thread, none is inside the loop body and no message moves. */
  ghost predicate Quiet(s: System) {
    forall later :: AllAllowed(s, later) && NoInstall(later) ==>
      SameMessages(s, Run(s, later)) && forall i :: 0 <= i < |s.threads| ==> !BodyAfter(s, later, i)
  }

  predicate BodyAfter(s: System, later: seq<Move>, i: nat) {
    i < |Run(s, later).threads| && InBody(Run(s, later).threads[i])
  }

  lemma {:induction false} AllowedFront(s: System, moves: seq<Move>)
    requires AllAllowed(s, moves) && moves != []
    ensures var front := moves[..|moves| - 1];
            AllAllowed(s, front) && Allowed(Run(s, front), moves[|moves| - 1])
  {
    hide Allowed, Run;
    forall k | 0 <= k < |moves| - 1
      ensures moves[..|moves| - 1][..k] == moves[..k] && moves[..|moves| - 1][k] == moves[k] {}
  }

  lemma NoInstallFront(moves: seq<Move>)
    requires NoInstall(moves) && moves != []
    ensures NoInstall(moves[..|moves| - 1]) && !moves[|moves| - 1].CompareAndSet?
  {
    assert moves[|moves| - 1] in moves;
  }

  lemma {:induction false} QuietRun(s: System, later: seq<Move>)
    requires Control(s) && StopReturned(s) && AllAllowed(s, later) && NoInstall(later)
    ensures var r := Run(s, later); Control(r) && StopReturned(r) && SameMessages(s, r)
    decreases |later|
  {
    if later == [] {
      hide StopReturned, Control;
    } else {
      hide *;
      var front, last := later[..|later| - 1], later[|later| - 1];
      assert later == front + [last];
      AllowedFront(s, later);
      NoInstallFront(later);
      RunAppend(s, front, last);
      QuietRun(s, front);
      ControlNext(Run(s, front), last);
      QuietStep(Run(s, front), last);
      SameTwice(s, Run(s, front), Run(s, later));
    }
  }

  lemma SameTwice(s: System, t: System, r: System)
    requires SameMessages(s, t) && SameMessages(t, r)
    ensures SameMessages(s, r)
  {
  }

  /**
   * In every reachable state in which no thread is installed, as a stop call that returns leaves it, all is quiet
   * until the next start if and only if no other stop is still waiting for a thread inside the loop body.
   */
  lemma {:induction false} StopQuietIffNoneJoining(queue: seq<Id>, moves: seq<Move>)
    requires AllAllowed(Initial(queue), moves) && Run(Initial(queue), moves).current.None?
    ensures var s := Run(Initial(queue), moves);
            Quiet(s) <==> !JoiningBody(s)
  {
    InvAlways(queue, moves);
    var s := Run(Initial(queue), moves);
    hide Run, AllAllowed, SameMessages, NoInstall;
    if JoiningBody(s) {
      var i :| i in s.joining && i < |s.threads| && InBody(s.threads[i]);
      NothingLater(s);
      assert BodyAfter(s, [], i);
    } else {
      forall later | AllAllowed(s, later) && NoInstall(later)
        ensures SameMessages(s, Run(s, later)) && forall i :: 0 <= i < |s.threads| ==> !BodyAfter(s, later, i)
      {
        QuietRun(s, later);
        NoneInBody(Run(s, later));
      }
    }
  }

  lemma {:induction false} NothingLater(s: System)
    ensures AllAllowed(s, []) && NoInstall([]) && Run(s, []) == s
  {
  }

  /** A second stop call returns at once; then the thread that the first still joins dequeues a message. */
  lemma SecondStopReturnsEarly(queue: seq<Id>) returns (moves: seq<Move>, later: seq<Move>)
    requires queue != []
    ensures |moves| > 2 && moves[|moves| - 2..] == [Swap, Swap] && Run(Initial(queue), moves).current.None?
    ensures NoInstall(later) && Run(Initial(queue), moves + later).available == queue[1..]
    ensures Run(Initial(queue), moves).available == queue
  {
    var a := RunOf(queue, [], Create);
    a := RunOf(queue, a, CompareAndSet);
    a := RunOf(queue, a, StartThread);
    a := RunOf(queue, a, Guard(0));
    var s := Run(Initial(queue), a);
    moves, later := a + [Swap] + [Swap], [Dequeue(0, 1)];
    RunAppend(Initial(queue), a, Swap);
    RunAppend(Initial(queue), a + [Swap], Swap);
    RunAppend(Initial(queue), moves, Dequeue(0, 1));
    hide Run;
    assert s.threads == [Dequeuing] && s.current == Some(0) && s.available == queue;
  }

  /**
   * Such a state is reached by a second controller that starts while the first still waits for its thread to
   * leave a long dequeue; two threads are then in the body.
   */
  lemma OverlappingControllersBreakExclusion(queue: seq<Id>)
    ensures exists moves: seq<Move> ::
              var t := Run(Initial(queue), moves).threads;
              |t| == 2 && InBody(t[0]) && InBody(t[1])
  {
    hide Run;
    var a := RunOf(queue, [], Create);
    a := RunOf(queue, a, CompareAndSet);
    a := RunOf(queue, a, StartThread);
    a := RunOf(queue, a, Guard(0));
    a := RunOf(queue, a, Swap);
    a := RunOf(queue, a, Create);
    a := RunOf(queue, a, CompareAndSet);
    a := RunOf(queue, a, StartThread);
    a := RunOf(queue, a, Guard(1));
    assert Run(Initial(queue), a).threads == [Dequeuing, Dequeuing];
  }

  lemma RunOf(queue: seq<Id>, moves: seq<Move>, m: Move) returns (r: seq<Move>)
    ensures Run(Initial(queue), r) == Next(Run(Initial(queue), moves), m)
    ensures moves == [] ==> Run(Initial(queue), moves) == Initial(queue)
  {
    r := moves + [m];
    RunAppend(Initial(queue), moves, m);
  }
}
