/**
 * The file agent's two threads: one dequeues and handles requests, the other runs queued commands.
 * Each thread runs a script of atomic actions; a run is any interleaving of the two.
 */
module FileAgent {
  import opened Wrappers

  datatype ParOutcome = Raises | Missing | Deleted
  datatype RunOutcome = RunnerRaises | Exit(code: int)

  /** What one message carries, and how the services it needs answer. */
  datatype Message =
    | Invalid(hasInstance: bool)
    | Undeliverable
    | Prepare(dataValid: bool, staged: bool)
    | Complete(dataValid: bool, par: ParOutcome, command: Option<string>, result: RunOutcome)

  datatype Action =
    | SendRaw(code: int)
    | Send(code: int)
    | StagePar
    | DeletePar
    | Enqueue
    | RunCommand

  datatype Event = Event(msg: nat, action: Action)
  datatype WorkItem = Item(msg: nat) | StopWorker

  // ----- the handlers as scripts -----

  predicate HasCommand(m: Message) { m.Complete? && m.command.Some? && m.command.value != "" }

  /** The request reaches the command queue. */
  predicate Queues(m: Message, commands: set<string>) {
    m.Complete? && m.dataValid && m.par == Deleted && HasCommand(m) && m.command.value in commands
  }

  /** handle_message, and the answer to a message that fails validation. */
  function HandlerScript(m: Message, commands: set<string>): seq<Action> {
    match m
    case Invalid(hasInstance) => if hasInstance then [SendRaw(400)] else []
    case Undeliverable => []
    case Prepare(dataValid, staged) =>
      if !dataValid then [Send(400)] else if !staged then [Send(500)] else [StagePar, Send(200)]
    case Complete(dataValid, par, command, _) =>
      if !dataValid then [Send(400)]
      else if par == Raises then [Send(500)]
      else if par == Missing then [Send(422)]
      else if !HasCommand(m) then [DeletePar, Send(200)]
      else if command.value !in commands then [DeletePar, Send(422)]
      else [DeletePar, Send(202), Enqueue]
  }

  /** run_command. */
  function WorkerScript(m: Message, commands: set<string>): seq<Action> {
    if !HasCommand(m) || m.command.value !in commands then [Send(422)]
    else [Send(201), RunCommand, Send(if m.result == Exit(0) then 200 else 500)]
  }

  function FullScript(m: Message, commands: set<string>): seq<Action> {
    HandlerScript(m, commands) + if Queues(m, commands) then WorkerScript(m, commands) else []
  }

  /** The same handlers run by one thread, as when no command queue is given. */
  class MessageProcessor {
    const commands: set<string>
    ghost var log: seq<Action>

    constructor (commands: set<string>)
      ensures this.commands == commands && log == []
    {
      this.commands := commands;
      log := [];
    }

    method Perform(a: Action)
      modifies this
      ensures log == old(log) + [a]
    {
      log := log + [a];
    }

    method RunCommandOf(m: Message)
      requires m.Complete?
      modifies this
      ensures log == old(log) + WorkerScript(m, commands)
    {
      if m.command.None? || m.command.value == "" || m.command.value !in commands {
        Perform(Send(422));
        return;
      }
      Perform(Send(201));
      Perform(RunCommand);
      if m.result.RunnerRaises? {
        Perform(Send(500));
        return;
      }
      if m.result.code == 0 {
        Perform(Send(200));
      } else {
        Perform(Send(500));
      }
    }

    /** With a queue the command is left to the worker, without one it is run at once. */
    method HandleCompleteUpload(m: Message, withQueue: bool)
      requires m.Complete?
      modifies this
      ensures withQueue ==> log == old(log) + HandlerScript(m, commands)
      ensures !withQueue && !Queues(m, commands) ==> log == old(log) + HandlerScript(m, commands)
      ensures !withQueue && Queues(m, commands) ==>
                log == old(log) + [DeletePar, Send(202)] + WorkerScript(m, commands)
      ensures !withQueue ==> |old(log)| <= |log| && AnsweredByFacts(m, commands, log[|old(log)|..])
    {
      hide AnsweredByFacts;
      ImmediateAnswers(m, commands, log);
      if !m.dataValid {
        Perform(Send(400));
        return;
      }
      if m.par == Raises {
        Perform(Send(500));
        return;
      }
      if m.par == Missing {
        Perform(Send(422));
        return;
      }
      Perform(DeletePar);
      if m.command.None? || m.command.value == "" {
        Perform(Send(200));
        return;
      }
      if m.command.value !in commands {
        Perform(Send(422));
        return;
      }
      Perform(Send(202));
      if withQueue {
        Perform(Enqueue);
      } else {
        RunCommandOf(m);
      }
    }
  }

  // ----- the two threads -----

  /** The worker's current message and what it still has to do for it. */
  datatype Worker = Idle | Busy(msg: nat, script: seq<Action>) | Done

  datatype System = System(
    inbox: seq<Message>, commands: set<string>,
    next: nat, handler: seq<Action>, stopping: bool,
    work: seq<WorkItem>, worker: Worker, taken: seq<nat>,
    trace: seq<Event>)

  function Start(inbox: seq<Message>, commands: set<string>): System {
    System(inbox, commands, 0, [], false, [], Idle, [], [])
  }

  datatype Move = Receive | Handle | Interrupt | Take | Work

  function Stopped(s: System): System { s.(stopping := true, work := s.work + [StopWorker]) }

  /** One atomic action of one thread; a move that is not enabled changes nothing. */
  function Next(s: System, m: Move): System {
    match m
    case Receive =>
      if s.stopping || s.handler != [] || s.next >= |s.inbox| then s
      else
        var r := s.(next := s.next + 1, handler := HandlerScript(s.inbox[s.next], s.commands));
        if s.inbox[s.next].Undeliverable? then Stopped(r) else r
    case Handle =>
      if s.handler == [] || s.next == 0 then s
      else
        var a := s.handler[0];
        s.(handler := s.handler[1..], trace := s.trace + [Event(s.next - 1, a)],
           work := if a.Enqueue? then s.work + [Item(s.next - 1)] else s.work)
    case Interrupt =>
      if s.stopping || s.handler != [] then s else Stopped(s)
    case Take =>
      if !s.worker.Idle? || s.work == [] then s
      else
        (match s.work[0]
         case StopWorker => s.(work := s.work[1..], worker := Done)
         case Item(i) =>
           if i >= |s.inbox| then s
           else s.(work := s.work[1..], taken := s.taken + [i],
                   worker := Busy(i, WorkerScript(s.inbox[i], s.commands))))
    case Work =>
      if !s.worker.Busy? then s
      else if s.worker.script == [] then s.(worker := Idle)
      else s.(worker := Busy(s.worker.msg, s.worker.script[1..]),
              trace := s.trace + [Event(s.worker.msg, s.worker.script[0])])
  }

  function Run(s: System, moves: seq<Move>): System {
    if moves == [] then s else Next(Run(s, moves[..|moves| - 1]), moves[|moves| - 1])
  }

  // ----- observations -----

  /** The actions done for message i, in order. */
  function Project(trace: seq<Event>, i: nat): seq<Action> {
    if trace == [] then []
    else
      var e := trace[|trace| - 1];
      Project(trace[..|trace| - 1], i) + if e.msg == i then [e.action] else []
  }

  function Codes(script: seq<Action>): seq<int> {
    if script == [] then []
    else
      var a := script[|script| - 1];
      Codes(script[..|script| - 1]) + if a.Send? then [a.code] else []
  }

  /** The messages whose event is the given action, in order. */
  function Order(trace: seq<Event>, a: Action): seq<nat> {
    if trace == [] then []
    else
      var e := trace[|trace| - 1];
      Order(trace[..|trace| - 1], a) + if e.action == a then [e.msg] else []
  }

  /** Whether the worker's part for message i lies ahead: in the queue, or still to be queued. */
  predicate Owed(s: System, i: nat) {
    i < |s.inbox| && Queues(s.inbox[i], s.commands) && (Item(i) in s.work || (i + 1 == s.next && s.handler != []))
  }

  function HandlerPart(s: System, i: nat): seq<Action> { if i + 1 == s.next then s.handler else [] }

  function WorkerPart(s: System, i: nat): seq<Action> {
    if Owed(s, i) then WorkerScript(s.inbox[i], s.commands)
    else if s.worker.Busy? && s.worker.msg == i then s.worker.script
    else []
  }

  /** What is still to be done for message i. */
  function Pending(s: System, i: nat): seq<Action> { HandlerPart(s, i) + WorkerPart(s, i) }

  function Items(work: seq<WorkItem>): seq<nat> {
    if work == [] then []
    else
      var w := work[|work| - 1];
      Items(work[..|work| - 1]) + if w.Item? then [w.msg] else []
  }

  ghost predicate Suffix(a: seq<Action>, b: seq<Action>) {
    |a| <= |b| && a == b[|b| - |a|..]
  }

  // ----- invariants -----

  /** Shape of the queues and threads. */
  ghost predicate Shape(s: System) {
    && s.next <= |s.inbox|
    && (s.handler != [] ==> s.next > 0 && !s.stopping
                            && Suffix(s.handler, HandlerScript(s.inbox[s.next - 1], s.commands)))
    && (forall k :: 0 <= k < |s.work| && s.work[k].Item? ==>
          && s.work[k].msg < s.next && Queues(s.inbox[s.work[k].msg], s.commands)
          && (s.handler != [] ==> s.work[k].msg < s.next - 1))
    && (forall k, l :: 0 <= k < l < |s.work| && s.work[k].Item? && s.work[l].Item? ==> s.work[k].msg < s.work[l].msg)
    && (s.worker.Busy? ==>
          && s.worker.msg < s.next && Queues(s.inbox[s.worker.msg], s.commands)
          && (s.handler != [] ==> s.worker.msg < s.next - 1)
          && Suffix(s.worker.script, WorkerScript(s.inbox[s.worker.msg], s.commands))
          && forall k :: 0 <= k < |s.work| && s.work[k].Item? ==> s.worker.msg < s.work[k].msg)
    && (forall k :: 0 <= k < |s.work| && s.work[k].StopWorker? ==> s.stopping && k == |s.work| - 1)
    && (s.stopping ==> s.worker.Done? || (s.work != [] && s.work[|s.work| - 1].StopWorker?))
    && (s.worker.Done? ==> s.stopping && s.work == [])
  }

  /** Done and still to do make up the script, for every message. */
  ghost predicate AccountedFor(s: System, i: nat) {
    Project(s.trace, i) + Pending(s, i)
    == if i < s.next && i < |s.inbox| then FullScript(s.inbox[i], s.commands) else []
  }

  ghost predicate Accounted(s: System) {
    forall i: nat :: AccountedFor(s, i)
  }

  lemma ShapeNextMessage(s: System, r: System)
    requires Shape(s) && s.handler == [] && !s.stopping && s.next < |s.inbox|
    requires r == s.(next := s.next + 1, handler := HandlerScript(s.inbox[s.next], s.commands))
    ensures Shape(r)
  {
    hide HandlerScript, WorkerScript, Queues;
  }

  lemma ShapeStopped(s: System)
    requires Shape(s) && s.handler == [] && !s.stopping
    ensures Shape(Stopped(s))
  {
    hide HandlerScript, WorkerScript, Queues, Suffix;
    var r := Stopped(s);
    assert forall k :: 0 <= k < |s.work| ==> r.work[k] == s.work[k];
    assert r.work[|s.work|] == StopWorker && |r.work| == |s.work| + 1;
  }

  lemma LostScript(m: Message, commands: set<string>)
    ensures m.Undeliverable? ==> HandlerScript(m, commands) == []
  {
  }

  lemma ShapeReceive(s: System)
    requires Shape(s)
    ensures Shape(Next(s, Receive))
  {
    hide Shape, HandlerScript, Stopped;
    if !(s.stopping || s.handler != [] || s.next >= |s.inbox|) {
      var r := s.(next := s.next + 1, handler := HandlerScript(s.inbox[s.next], s.commands));
      ShapeNextMessage(s, r);
      LostScript(s.inbox[s.next], s.commands);
      if s.inbox[s.next].Undeliverable? {
        ShapeStopped(r);
      }
    }
  }

  /** A handler never runs a command, and enqueues exactly when the request queues, as its last action. */
  lemma HandlerShape(m: Message, commands: set<string>)
    ensures var h := HandlerScript(m, commands);
            && (forall k :: 0 <= k < |h| ==>
                  !h[k].RunCommand? && (h[k].Enqueue? ==> k == |h| - 1 && Queues(m, commands)))
            && (Queues(m, commands) ==> h != [] && h[|h| - 1].Enqueue?)
  {
  }

  lemma SuffixAt(a: seq<Action>, b: seq<Action>, k: nat)
    requires Suffix(a, b) && k < |a|
    ensures a[k] == b[|b| - |a| + k]
  {
  }

  lemma EnqueueLast(m: Message, commands: set<string>, script: seq<Action>)
    requires Suffix(script, HandlerScript(m, commands)) && script != [] && script[0].Enqueue?
    ensures Queues(m, commands) && script == [Enqueue]
  {
    hide *;
    HandlerShape(m, commands);
    SuffixAt(script, HandlerScript(m, commands), 0);
    SuffixShort(script, HandlerScript(m, commands));
  }

  lemma SuffixShort(a: seq<Action>, b: seq<Action>)
    requires Suffix(a, b)
    ensures |a| <= |b|
  {
  }

  lemma SuffixTail(a: seq<Action>, b: seq<Action>)
    requires Suffix(a, b) && a != []
    ensures Suffix(a[1..], b)
  {
  }

  lemma ShapeHandled(s: System, r: System)
    requires Shape(s) && (s.handler != [] ==> r == s.(handler := s.handler[1..], trace := r.trace))
    ensures s.handler != [] ==> Shape(r)
  {
    hide HandlerScript, WorkerScript, Queues, Suffix;
    if s.handler != [] {
      SuffixTail(s.handler, HandlerScript(s.inbox[s.next - 1], s.commands));
    }
  }

  lemma ShapeEnqueued(s: System, r: System)
    requires Shape(s) && s.handler == [Enqueue] && s.next > 0 && Queues(s.inbox[s.next - 1], s.commands)
    requires r == s.(handler := [], work := s.work + [Item(s.next - 1)], trace := r.trace)
    ensures Shape(r)
  {
    hide HandlerScript, WorkerScript, Queues, Suffix;
    assert forall k :: 0 <= k < |s.work| ==> r.work[k] == s.work[k];
    assert r.work[|s.work|] == Item(s.next - 1) && |r.work| == |s.work| + 1;
  }

  lemma ShapeHandle(s: System)
    requires Shape(s)
    ensures Shape(Next(s, Handle))
  {
    hide *;
    if s.handler != [] {
      HandlerFacts(s);
      HandleEffect(s);
      if s.handler[0].Enqueue? {
        HandlerQueues(s);
        assert s.handler[1..] == [];
        ShapeEnqueued(s, Next(s, Handle));
      } else {
        ShapeHandled(s, Next(s, Handle));
      }
    } else {
      HandleNothing(s);
    }
  }

  lemma HandlerQueues(s: System)
    requires Shape(s) && s.handler != [] && s.handler[0].Enqueue?
    ensures 0 < s.next <= |s.inbox| && Queues(s.inbox[s.next - 1], s.commands)
  {
    hide HandlerScript, WorkerScript, Queues, Suffix;
    EnqueueLast(s.inbox[s.next - 1], s.commands, s.handler);
  }

  lemma ShapeInterrupt(s: System)
    requires Shape(s)
    ensures Shape(Next(s, Interrupt))
  {
    hide Shape, Stopped;
    if !s.stopping && s.handler == [] {
      ShapeStopped(s);
    }
  }

  lemma ShapeTake(s: System)
    requires Shape(s)
    ensures Shape(Next(s, Take))
  {
    hide HandlerScript, WorkerScript, Queues;
  }

  lemma ShapeWork(s: System)
    requires Shape(s)
    ensures Shape(Next(s, Work))
  {
    hide HandlerScript, WorkerScript, Queues;
  }

  // ----- accounting -----

  lemma {:induction false} ProjectAppend(trace: seq<Event>, e: Event, i: nat)
    ensures Project(trace + [e], i) == Project(trace, i) + if e.msg == i then [e.action] else []
  {
    assert (trace + [e])[..|trace|] == trace;
  }

  /** Moving the first action from what is pending to what is done keeps the whole. */
  lemma MoveAction(done: seq<Action>, script: seq<Action>, rest: seq<Action>)
    requires script != []
    ensures (done + [script[0]]) + (script[1..] + rest) == done + (script + rest)
  {
  }

  lemma NewMessage(s: System)
    requires Shape(s) && Next(s, Receive) != s
    ensures Item(s.next) !in s.work
    ensures Pending(Next(s, Receive), s.next) == FullScript(s.inbox[s.next], s.commands)
  {
    var r := Next(s, Receive);
    assert r.next == s.next + 1 && r.worker == s.worker && r.inbox == s.inbox && r.commands == s.commands;
    assert r.handler == HandlerScript(s.inbox[s.next], s.commands);
    assert Queues(s.inbox[s.next], s.commands) ==> r.handler != [];
    assert r.work == s.work || r.work == s.work + [StopWorker];
    hide Next, HandlerScript, WorkerScript, Suffix;
  }

  lemma OtherMessages(s: System, i: nat)
    requires Shape(s) && Next(s, Receive) != s && i != s.next
    ensures Pending(Next(s, Receive), i) == Pending(s, i)
  {
    var r := Next(s, Receive);
    assert r.next == s.next + 1 && s.handler == [] && r.worker == s.worker;
    assert r.inbox == s.inbox && r.commands == s.commands;
    assert r.work == s.work || r.work == s.work + [StopWorker];
    hide Next, HandlerScript, WorkerScript, Suffix, Shape;
    assert Item(i) in r.work <==> Item(i) in s.work;
  }

  lemma ReceiveFacts(s: System)
    ensures var r := Next(s, Receive);
            r != s ==> s.next < |s.inbox| && r.next == s.next + 1
                       && r.trace == s.trace && r.inbox == s.inbox && r.commands == s.commands
  {
    hide HandlerScript;
  }

  lemma {:induction false} NothingDoneYet(s: System, i: nat)
    requires AccountedFor(s, i) && i >= s.next
    ensures Project(s.trace, i) == []
  {
    hide Project, Pending, FullScript;
  }

  lemma {:induction false} AccountedNew(s: System, i: nat)
    requires i < s.next && i < |s.inbox| && Project(s.trace, i) == []
    requires Pending(s, i) == FullScript(s.inbox[i], s.commands)
    ensures AccountedFor(s, i)
  {
    hide Project, Pending, FullScript;
  }

  lemma AccountedOther(s: System, r: System, i: nat)
    requires AccountedFor(s, i) && r.trace == s.trace && r.inbox == s.inbox && r.commands == s.commands
    requires Pending(r, i) == Pending(s, i) && (i < s.next <==> i < r.next)
    ensures AccountedFor(r, i)
  {
    hide Project, Pending, FullScript;
  }

  lemma AccountedReceive(s: System, i: nat)
    requires Shape(s) && AccountedFor(s, i)
    ensures AccountedFor(Next(s, Receive), i)
  {
    hide *;
    var r := Next(s, Receive);
    ReceiveFacts(s);
    if r != s {
      if i == s.next {
        NewMessage(s);
        NothingDoneYet(s, i);
        AccountedNew(r, i);
      } else {
        OtherMessages(s, i);
        AccountedOther(s, r, i);
      }
    }
  }

  /** What the handler's next action leaves of the message in hand. */
  lemma HandlerGoesOn(s: System)
    requires Shape(s)
    ensures s.handler != [] ==>
              && 0 < s.next <= |s.inbox| && (s.handler[0].Enqueue? ==> s.handler == [Enqueue])
              && (s.handler[0].Enqueue? ==> Queues(s.inbox[s.next - 1], s.commands))
              && (!s.handler[0].Enqueue? && Queues(s.inbox[s.next - 1], s.commands) ==> s.handler[1..] != [])
  {
    hide HandlerScript, WorkerScript, Queues, Suffix;
    if s.handler != [] {
      assert 0 < s.next <= |s.inbox|;
      var m := s.inbox[s.next - 1];
      assert Suffix(s.handler, HandlerScript(m, s.commands));
      hide Shape;
      if s.handler[0].Enqueue? {
        EnqueueLast(m, s.commands, s.handler);
      } else if Queues(m, s.commands) {
        HandlerEndsWithEnqueue(m, s.commands, s.handler);
      }
    }
  }

  lemma OwedHandle(s: System, i: nat)
    requires Shape(s)
    ensures s.handler != [] ==> Owed(Next(s, Handle), i) == Owed(s, i)
  {
    hide Shape, Next, Queues;
    HandlerGoesOn(s);
    if s.handler != [] {
      HandleEffect(s);
    }
    assert s.next > 0 ==> (Item(i) in s.work + [Item(s.next - 1)] <==> Item(i) in s.work || i + 1 == s.next);
  }

  lemma WorkerPartHandle(s: System, i: nat)
    requires Shape(s)
    ensures s.handler != [] ==> WorkerPart(Next(s, Handle), i) == WorkerPart(s, i)
  {
    hide Shape, Next, Owed, WorkerScript;
    HandlerGoesOn(s);
    if s.handler != [] {
      HandleEffect(s);
      OwedHandle(s, i);
      OwedInInbox(s, i);
    }
  }

  lemma OwedInInbox(s: System, i: nat)
    ensures Owed(s, i) ==> i < |s.inbox|
  {
  }

  /** A step that keeps done-plus-pending the same keeps the account. */
  lemma {:induction false} AccountedStep(s: System, r: System, i: nat)
    requires AccountedFor(s, i)
    requires r.inbox == s.inbox && r.commands == s.commands && r.next == s.next
    requires Project(r.trace, i) + Pending(r, i) == Project(s.trace, i) + Pending(s, i)
    ensures AccountedFor(r, i)
  {
    hide Project, Pending, FullScript;
  }

  lemma PendingHandle(s: System, i: nat)
    requires Shape(s)
    ensures s.handler != [] ==>
              var r, w := Next(s, Handle), WorkerPart(s, i);
              if i + 1 == s.next then Pending(s, i) == s.handler + w && Pending(r, i) == s.handler[1..] + w
              else Pending(r, i) == Pending(s, i)
  {
    hide Shape, Next, WorkerPart;
    WorkerPartHandle(s, i);
    HandlerGoesOn(s);
    if s.handler != [] {
      HandleEffect(s);
    }
  }

  lemma AccountedHandle(s: System, i: nat)
    requires Shape(s) && AccountedFor(s, i)
    ensures AccountedFor(Next(s, Handle), i)
  {
    hide *;
    if s.handler != [] {
      HandlerFacts(s);
      HandleEffect(s);
      PendingHandle(s, i);
      ProjectAppend(s.trace, Event(s.next - 1, s.handler[0]), i);
      MoveAction(Project(s.trace, i), s.handler, WorkerPart(s, i));
      AccountedStep(s, Next(s, Handle), i);
    } else {
      HandleNothing(s);
    }
  }

  lemma HandleNothing(s: System)
    requires s.handler == []
    ensures Next(s, Handle) == s
  {
  }

  /** While a message that queues is being handled, its last action is the enqueue. */
  lemma HandlerEndsWithEnqueue(m: Message, commands: set<string>, script: seq<Action>)
    requires Suffix(script, HandlerScript(m, commands)) && script != [] && Queues(m, commands)
    ensures script[|script| - 1].Enqueue?
  {
    hide *;
    HandlerShape(m, commands);
    SuffixAt(script, HandlerScript(m, commands), |script| - 1);
  }

  lemma AccountedInterrupt(s: System, i: nat)
    requires Shape(s) && AccountedFor(s, i)
    ensures AccountedFor(Next(s, Interrupt), i)
  {
    hide HandlerScript, WorkerScript, Queues, Project, FullScript, Suffix, Shape;
    assert Item(i) in s.work + [StopWorker] <==> Item(i) in s.work;
  }

  lemma TakeEffect(s: System)
    requires Shape(s) && Next(s, Take) != s
    ensures s.worker.Idle? && s.work != []
    ensures var w := s.work[0];
            match w
            case StopWorker => Next(s, Take) == s.(work := s.work[1..], worker := Done)
            case Item(j) => j < |s.inbox| && Queues(s.inbox[j], s.commands)
                            && (s.handler != [] ==> j < s.next - 1) && Item(j) !in s.work[1..]
                            && Next(s, Take) == s.(work := s.work[1..], taken := s.taken + [j],
                                                   worker := Busy(j, WorkerScript(s.inbox[j], s.commands)))
  {
    hide HandlerScript, WorkerScript, Queues, Suffix;
    assert forall k :: 1 <= k < |s.work| ==> s.work[1..][k - 1] == s.work[k];
  }

  lemma PendingTake(s: System, i: nat)
    requires Shape(s) && Next(s, Take) != s
    ensures Pending(Next(s, Take), i) == Pending(s, i)
  {
    TakeEffect(s);
    hide Next, HandlerScript, WorkerScript, Queues, Suffix, Shape;
    assert s.work == [s.work[0]] + s.work[1..];
    assert Item(i) in s.work <==> s.work[0] == Item(i) || Item(i) in s.work[1..];
  }

  lemma AccountedTake(s: System, i: nat)
    requires Shape(s) && AccountedFor(s, i)
    ensures AccountedFor(Next(s, Take), i)
  {
    hide Next, HandlerScript, WorkerScript, Shape, Project, FullScript, Pending, Queues;
    if Next(s, Take) != s {
      TakeEffect(s);
      PendingTake(s, i);
    }
  }

  lemma WorkEffect(s: System)
    requires s.worker.Busy? && s.worker.script != []
    ensures Next(s, Work) == s.(worker := Busy(s.worker.msg, s.worker.script[1..]),
                                trace := s.trace + [Event(s.worker.msg, s.worker.script[0])])
  {
  }

  lemma BusyFacts(s: System)
    requires Shape(s) && s.worker.Busy?
    ensures Item(s.worker.msg) !in s.work && (s.worker.msg + 1 == s.next ==> s.handler == [])
  {
    hide HandlerScript, WorkerScript, Suffix, Queues;
  }

  lemma PendingWork(s: System, i: nat)
    requires Shape(s) && s.worker.Busy? && s.worker.script != []
    ensures var r := Next(s, Work);
            && (i != s.worker.msg ==> Pending(r, i) == Pending(s, i))
            && (i == s.worker.msg ==> Pending(s, i) == s.worker.script && Pending(r, i) == s.worker.script[1..])
  {
    hide Next, HandlerScript, WorkerScript, Suffix, Queues, Shape;
    BusyFacts(s);
    WorkEffect(s);
    var r := Next(s, Work);
    assert Owed(r, i) == Owed(s, i);
  }

  lemma AccountedWork(s: System, i: nat)
    requires Shape(s) && AccountedFor(s, i)
    ensures AccountedFor(Next(s, Work), i)
  {
    hide *;
    if s.worker.Busy? && s.worker.script != [] {
      WorkEffect(s);
      PendingWork(s, i);
      var p, script := Project(s.trace, i), s.worker.script;
      ProjectAppend(s.trace, Event(s.worker.msg, script[0]), i);
      assert (p + [script[0]]) + script[1..] == p + script;
      AccountedStep(s, Next(s, Work), i);
    } else {
      IdleWork(s, i);
    }
  }

  lemma IdleWork(s: System, i: nat)
    requires AccountedFor(s, i) && !(s.worker.Busy? && s.worker.script != [])
    ensures AccountedFor(Next(s, Work), i)
  {
    hide HandlerScript, WorkerScript, Project, FullScript, Queues;
  }

  // ----- order -----

  /** The worker takes messages in the order in which they were queued, and runs their commands in it. */
  ghost predicate Ordered(s: System) {
    && Order(s.trace, Enqueue) == s.taken + Items(s.work)
    && s.taken == (if s.worker.Busy? && RunCommand in s.worker.script then Order(s.trace, RunCommand) + [s.worker.msg]
                   else Order(s.trace, RunCommand))
    && Increasing(Order(s.trace, Enqueue), if s.handler == [] then s.next else s.next - 1)
  }

  /** Strictly increasing, with every element below the bound. */
  ghost predicate Increasing(q: seq<nat>, bound: int) {
    && (forall k, l :: 0 <= k < l < |q| ==> q[k] < q[l])
    && (forall k :: 0 <= k < |q| ==> q[k] < bound)
  }

  lemma {:induction false} OrderAppend(trace: seq<Event>, e: Event, a: Action)
    ensures Order(trace + [e], a) == if e.action == a then Order(trace, a) + [e.msg] else Order(trace, a)
  {
    assert (trace + [e])[..|trace|] == trace;
  }

  lemma {:induction false} ItemsAppend(work: seq<WorkItem>, w: WorkItem)
    ensures Items(work + [w]) == if w.Item? then Items(work) + [w.msg] else Items(work)
  {
    assert (work + [w])[..|work|] == work;
  }

  lemma {:induction false} ItemsHead(work: seq<WorkItem>)
    requires work != []
    ensures Items(work) == (if work[0].Item? then [work[0].msg] else []) + Items(work[1..])
    decreases |work|
  {
    if |work| > 1 {
      var front := work[..|work| - 1];
      ItemsHead(front);
      assert work[1..][..|work| - 2] == front[1..];
      assert work[1..][|work| - 2] == work[|work| - 1];
    }
  }

  /** A worker's script queues nothing and runs its command exactly once, as its second action. */
  lemma WorkerShape(m: Message, commands: set<string>)
    requires Queues(m, commands)
    ensures var w := WorkerScript(m, commands);
            |w| == 3 && w[0].Send? && w[1] == RunCommand && w[2].Send?
  {
  }

  lemma WorkerActions(m: Message, commands: set<string>, script: seq<Action>)
    requires Queues(m, commands) && Suffix(script, WorkerScript(m, commands)) && script != []
    ensures !script[0].Enqueue?
    ensures RunCommand in script <==> script[0] == RunCommand || RunCommand in script[1..]
    ensures script[0] == RunCommand ==> RunCommand !in script[1..]
    ensures script == WorkerScript(m, commands) ==> RunCommand in script
  {
    hide *;
    WorkerShape(m, commands);
    var w := WorkerScript(m, commands);
    SuffixShort(script, w);
    SuffixAt(script, w, 0);
    if |script| > 1 { SuffixAt(script, w, 1); }
    if |script| > 2 { SuffixAt(script, w, 2); }
    assert script == [script[0]] + script[1..];
    assert forall k :: 0 <= k < |script| - 1 ==> script[1..][k] == script[k + 1];
  }

  lemma ReceiveEffect(s: System)
    ensures var r := Next(s, Receive);
            && r.trace == s.trace && r.taken == s.taken && r.worker == s.worker
            && (r.work == s.work || r.work == s.work + [StopWorker])
            && (r == s || (s.handler == [] && r.next == s.next + 1))
  {
    hide HandlerScript;
  }

  lemma OrderedSame(s: System, r: System)
    requires Ordered(s) && r.trace == s.trace && r.taken == s.taken && r.worker == s.worker
    requires Items(r.work) == Items(s.work)
    requires r == s || (s.handler == [] && r.next == s.next + 1)
    ensures Ordered(r)
  {
    hide Order, Items, Increasing;
    WiderBound(Order(s.trace, Enqueue), if s.handler == [] then s.next else s.next - 1,
               if r.handler == [] then r.next else r.next - 1);
  }

  lemma OrderedReceive(s: System)
    requires Ordered(s)
    ensures Ordered(Next(s, Receive))
  {
    hide *;
    ItemsAppend(s.work, StopWorker);
    ReceiveEffect(s);
    OrderedSame(s, Next(s, Receive));
  }

  lemma WiderBound(q: seq<nat>, n: int, n': int)
    requires Increasing(q, n) && n <= n'
    ensures Increasing(q, n')
  {
  }

  lemma OrderedInterrupt(s: System)
    requires Ordered(s)
    ensures Ordered(Next(s, Interrupt))
  {
    ItemsAppend(s.work, StopWorker);
    hide Order, Items, Increasing;
  }

  lemma OrderedNext(s: System, m: Move)
    requires Shape(s) && Ordered(s)
    ensures Ordered(Next(s, m))
  {
    hide Next, Ordered, Shape;
    match m
    case Receive => OrderedReceive(s);
    case Interrupt => OrderedInterrupt(s);
    case Handle => OrderedHandle(s);
    case Take => OrderedTake(s);
    case Work => OrderedWork(s);
  }

  lemma HandleEffect(s: System)
    requires s.handler != [] && s.next > 0
    ensures var a := s.handler[0];
            Next(s, Handle) == s.(handler := s.handler[1..], trace := s.trace + [Event(s.next - 1, a)],
                                  work := if a.Enqueue? then s.work + [Item(s.next - 1)] else s.work)
  {
  }

  lemma HandlerFacts(s: System)
    requires Shape(s)
    ensures s.handler != [] ==>
              && s.next > 0 && !s.handler[0].RunCommand?
              && (s.handler[0].Enqueue? ==> s.handler == [Enqueue])
  {
    hide HandlerScript, WorkerScript, Queues, Suffix;
    HandlerGoesOn(s);
    if s.handler != [] {
      var m := s.inbox[s.next - 1];
      assert Suffix(s.handler, HandlerScript(m, s.commands));
      HandlerShape(m, s.commands);
      SuffixAt(s.handler, HandlerScript(m, s.commands), 0);
      SuffixShort(s.handler, HandlerScript(m, s.commands));
    }
  }

  lemma OrderedHandle(s: System)
    requires Shape(s) && Ordered(s)
    ensures Ordered(Next(s, Handle))
  {
    hide *;
    if s.handler != [] {
      HandlerFacts(s);
      HandleEffect(s);
      var e := Event(s.next - 1, s.handler[0]);
      OrderAppend(s.trace, e, Enqueue);
      OrderAppend(s.trace, e, RunCommand);
      ItemsAppend(s.work, Item(s.next - 1));
      OrderedHandled(s, Next(s, Handle));
    } else {
      HandleNothing(s);
    }
  }

  lemma OrderedHandled(s: System, r: System)
    requires Ordered(s) && s.handler != [] && s.next > 0
    requires r.next == s.next && r.taken == s.taken && r.worker == s.worker && r.handler == s.handler[1..]
    requires Order(r.trace, RunCommand) == Order(s.trace, RunCommand)
    requires if s.handler == [Enqueue]
             then Order(r.trace, Enqueue) == Order(s.trace, Enqueue) + [s.next - 1]
                  && Items(r.work) == Items(s.work) + [s.next - 1]
             else Order(r.trace, Enqueue) == Order(s.trace, Enqueue) && Items(r.work) == Items(s.work)
    ensures Ordered(r)
  {
    hide Order, Items, Increasing;
    var n: nat := s.next - 1;
    AppendIncreasing(Order(s.trace, Enqueue), n);
    if s.handler == [Enqueue] {
      assert s.taken + (Items(s.work) + [n]) == (s.taken + Items(s.work)) + [n];
    }
  }

  lemma AppendIncreasing(q: seq<nat>, n: nat)
    requires Increasing(q, n)
    ensures Increasing(q + [n], n + 1) && Increasing(q, n + 1)
  {
  }

  lemma OrderedTaken(s: System, r: System, i: nat, script: seq<Action>)
    requires Ordered(s) && s.worker.Idle? && Items(s.work) == [i] + Items(r.work)
    requires r == s.(work := r.work, taken := s.taken + [i], worker := Busy(i, script)) && RunCommand in script
    ensures Ordered(r)
  {
    hide Order, Items, Increasing;
    assert s.taken + ([i] + Items(r.work)) == (s.taken + [i]) + Items(r.work);
  }

  lemma OrderedStopped(s: System, r: System)
    requires Ordered(s) && !s.worker.Busy? && !r.worker.Busy? && Items(s.work) == Items(r.work)
    requires r == s.(work := r.work, worker := r.worker)
    ensures Ordered(r)
  {
    hide Order, Items, Increasing;
  }

  lemma OrderedTake(s: System)
    requires Shape(s) && Ordered(s)
    ensures Ordered(Next(s, Take))
  {
    hide *;
    var r := Next(s, Take);
    if r != s {
      TakeEffect(s);
      ItemsHead(s.work);
      if s.work[0].Item? {
        var i := s.work[0].msg;
        var w := WorkerScript(s.inbox[i], s.commands);
        WorkerShape(s.inbox[i], s.commands);
        assert w[1] in w;
        OrderedTaken(s, r, i, w);
      } else {
        assert Items(s.work) == Items(r.work);
        OrderedStopped(s, r);
      }
    }
  }

  lemma OrderedWork(s: System)
    requires Shape(s) && Ordered(s)
    ensures Ordered(Next(s, Work))
  {
    hide *;
    if s.worker.Busy? && s.worker.script != [] {
      BusyScript(s);
      WorkerActions(s.inbox[s.worker.msg], s.commands, s.worker.script);
      WorkEffect(s);
      var e := Event(s.worker.msg, s.worker.script[0]);
      OrderAppend(s.trace, e, Enqueue);
      OrderAppend(s.trace, e, RunCommand);
      OrderedFrom(s, Next(s, Work));
    } else {
      OrderedIdle(s);
    }
  }

  lemma BusyScript(s: System)
    requires Shape(s) && s.worker.Busy?
    ensures s.worker.msg < |s.inbox| && Queues(s.inbox[s.worker.msg], s.commands)
    ensures Suffix(s.worker.script, WorkerScript(s.inbox[s.worker.msg], s.commands))
  {
    hide HandlerScript, WorkerScript, Suffix, Queues;
  }

  lemma OrderedIdle(s: System)
    requires Ordered(s) && !(s.worker.Busy? && s.worker.script != [])
    ensures Ordered(Next(s, Work))
  {
    hide HandlerScript, WorkerScript, Order, Items, Increasing;
  }

  lemma OrderedFrom(s: System, r: System)
    requires Ordered(s) && r.next == s.next && r.handler == s.handler && r.work == s.work && r.taken == s.taken
    requires Order(r.trace, Enqueue) == Order(s.trace, Enqueue)
    requires s.worker.Busy? && s.worker.script != [] && r.worker == Busy(s.worker.msg, s.worker.script[1..])
    requires RunCommand in s.worker.script <==> s.worker.script[0] == RunCommand || RunCommand in s.worker.script[1..]
    requires s.worker.script[0] == RunCommand ==> RunCommand !in s.worker.script[1..]
    requires Order(r.trace, RunCommand)
             == if s.worker.script[0] == RunCommand then Order(s.trace, RunCommand) + [s.worker.msg]
                else Order(s.trace, RunCommand)
    ensures Ordered(r)
  {
    hide Order, Items, Increasing;
  }

  // ----- every run -----

  ghost predicate Inv(s: System) { Shape(s) && Accounted(s) && Ordered(s) }

  lemma InvNext(s: System, m: Move)
    requires Inv(s)
    ensures Inv(Next(s, m))
  {
    hide Next, Shape, AccountedFor, Ordered;
    OrderedNext(s, m);
    match m
    case Receive => ShapeReceive(s); forall i: nat { AccountedReceive(s, i); }
    case Handle => ShapeHandle(s); forall i: nat { AccountedHandle(s, i); }
    case Interrupt => ShapeInterrupt(s); forall i: nat { AccountedInterrupt(s, i); }
    case Take => ShapeTake(s); forall i: nat { AccountedTake(s, i); }
    case Work => ShapeWork(s); forall i: nat { AccountedWork(s, i); }
  }

  lemma InvStart(inbox: seq<Message>, commands: set<string>)
    ensures Inv(Start(inbox, commands))
  {
    assert forall i: nat :: AccountedFor(Start(inbox, commands), i);
  }

  lemma NextKeepsInbox(s: System, m: Move)
    ensures Next(s, m).inbox == s.inbox && Next(s, m).commands == s.commands
  {
  }

  lemma {:induction false} InvAlways(inbox: seq<Message>, commands: set<string>, moves: seq<Move>)
    ensures var s := Run(Start(inbox, commands), moves);
            Inv(s) && s.inbox == inbox && s.commands == commands
    decreases |moves|
  {
    InvStart(inbox, commands);
    hide Inv, Next;
    if moves != [] {
      NextKeepsInbox(Run(Start(inbox, commands), moves[..|moves| - 1]), moves[|moves| - 1]);
      InvAlways(inbox, commands, moves[..|moves| - 1]);
      InvNext(Run(Start(inbox, commands), moves[..|moves| - 1]), moves[|moves| - 1]);
    }
  }

  // ----- main results -----

  lemma {:induction false} CodesConcat(a: seq<Action>, b: seq<Action>)
    ensures Codes(a + b) == Codes(a) + Codes(b)
    decreases |b|
  {
    if b == [] {
      assert a + b == a;
    } else {
      assert (a + b)[..|a + b| - 1] == a + b[..|b| - 1];
      CodesConcat(a, b[..|b| - 1]);
    }
  }

  /** The answers a complete-upload request can get, in order. */
  ghost predicate CompleteCodes(codes: seq<int>) {
    || codes == [400] || codes == [500] || codes == [422] || codes == [200]
    || codes == [202, 201, 200] || codes == [202, 201, 500]
  }

  lemma CodesOfThree(a: Action, b: Action, c: Action)
    ensures Codes([a]) == if a.Send? then [a.code] else []
    ensures Codes([a, b]) == Codes([a]) + if b.Send? then [b.code] else []
    ensures Codes([a, b, c]) == Codes([a, b]) + if c.Send? then [c.code] else []
  {
    assert [a][..0] == [] && [a, b][..1] == [a] && [a, b, c][..2] == [a, b];
  }

  /** A command is answered 422 and not run, or 201 before it runs and then 200 exactly for exit code 0, else 500. */
  lemma WorkerAnswers(m: Message, commands: set<string>)
    requires m.Complete?
    ensures var w := WorkerScript(m, commands);
            && (Codes(w) == [422] || Codes(w) == [201, 200] || Codes(w) == [201, 500])
            && (RunCommand in w <==> HasCommand(m) && m.command.value in commands)
            && (RunCommand in w <==> Codes(w) != [422])
            && (RunCommand in w ==> |w| == 3 && w[0] == Send(201) && w[1] == RunCommand)
            && (Codes(w) == [201, 200] <==> RunCommand in w && m.result == Exit(0))
  {
    hide Codes;
    var last := if m.result == Exit(0) then 200 else 500;
    CodesOfThree(Send(422), Enqueue, Enqueue);
    CodesOfThree(Send(201), RunCommand, Send(last));
    assert [Send(201), RunCommand, Send(last)][1] == RunCommand;
    assert [201, 200][1] != [201, 500][1] && |[422]| != |[201, 200]|;
  }

  /** What a message is answered, and what is done for it, by the facts of the message alone. */
  ghost predicate AnsweredByFacts(m: Message, commands: set<string>, done: seq<Action>) {
    match m
    case Invalid(hasInstance) => done == if hasInstance then [SendRaw(400)] else []
    case Undeliverable => done == []
    case Prepare(dataValid, staged) =>
      && (Codes(done) == [400] <==> !dataValid)
      && (Codes(done) == [500] <==> dataValid && !staged)
      && (Codes(done) == [200] <==> dataValid && staged)
      && (StagePar in done <==> dataValid && staged) && (StagePar in done ==> done[0] == StagePar)
    case Complete(dataValid, par, command, result) =>
      var deleted, asked := dataValid && par == Deleted, command != None && command != Some("");
      var runs := deleted && asked && command.value in commands;
      && (Codes(done) == [400] <==> !dataValid)
      && (Codes(done) == [500] <==> dataValid && par == Raises)
      && (Codes(done) == [422] <==> (dataValid && par == Missing) || (deleted && asked && !runs))
      && (Codes(done) == [200] <==> deleted && !asked)
      && (Codes(done) == [202, 201, 200] <==> runs && result == Exit(0))
      && (Codes(done) == [202, 201, 500] <==> runs && result != Exit(0))
      && (DeletePar in done <==> deleted) && (DeletePar in done ==> done[0] == DeletePar)
      && (RunCommand in done <==> runs)
  }

  lemma PrepareAnswers(m: Message, commands: set<string>)
    requires m.Prepare?
    ensures AnsweredByFacts(m, commands, FullScript(m, commands))
    ensures |Codes(FullScript(m, commands))| == 1
  {
    hide Codes;
    CodesOfThree(Send(400), Enqueue, Enqueue);
    CodesOfThree(Send(500), Enqueue, Enqueue);
    CodesOfThree(StagePar, Send(200), Enqueue);
    assert HandlerScript(m, commands) + [] == HandlerScript(m, commands);
    assert [StagePar, Send(200)][0] == StagePar;
    assert [200][0] != [400][0] && [200][0] != [500][0] && [400][0] != [500][0];
  }

  /** The handler's part alone: 202 and the enqueue exactly when the command is to be run. */
  lemma HandlerAnswers(m: Message, commands: set<string>)
    requires m.Complete?
    ensures var h := HandlerScript(m, commands);
            && Codes(h) == [if !m.dataValid then 400
                            else if m.par == Raises then 500
                            else if m.par == Missing then 422
                            else if !HasCommand(m) then 200
                            else if m.command.value !in commands then 422 else 202]
            && (DeletePar in h <==> m.dataValid && m.par == Deleted) && (DeletePar in h ==> h[0] == DeletePar)
            && RunCommand !in h
  {
    hide Codes;
    CodesOfThree(Send(400), Enqueue, Enqueue);
    CodesOfThree(Send(500), Enqueue, Enqueue);
    CodesOfThree(Send(422), Enqueue, Enqueue);
    CodesOfThree(DeletePar, Send(200), Enqueue);
    CodesOfThree(DeletePar, Send(422), Enqueue);
    CodesOfThree(DeletePar, Send(202), Enqueue);
    var h := HandlerScript(m, commands);
    assert m.dataValid && m.par == Deleted ==> h[0] == DeletePar;
  }

  /** Each of the six sequences of answers is given exactly in its own case, and no other. */
  lemma ScriptCodes(m: Message, commands: set<string>)
    requires m.Complete?
    ensures CompleteCodes(Codes(FullScript(m, commands)))
    ensures AnsweredByFacts(m, commands, FullScript(m, commands))
  {
    hide Codes, HandlerScript, WorkerScript;
    var h, w := HandlerScript(m, commands), WorkerScript(m, commands);
    HandlerAnswers(m, commands);
    WorkerAnswers(m, commands);
    CodesConcat(h, w);
    assert h + [] == h;
    assert Queues(m, commands) ==> Codes(h + w) == [202, 201, if m.result == Exit(0) then 200 else 500];
    DifferentCodes(Codes(FullScript(m, commands)));
  }

  lemma DifferentCodes(codes: seq<int>)
    requires CompleteCodes(codes)
    ensures codes == [400] <==> codes[0] == 400
    ensures codes == [500] <==> codes[0] == 500
    ensures codes == [422] <==> codes[0] == 422
    ensures codes == [200] <==> codes[0] == 200
    ensures codes[0] == 202 <==> |codes| == 3
    ensures |codes| == 3 ==> (codes == [202, 201, 200] <==> codes[2] == 200)
    ensures |codes| == 3 ==> (codes == [202, 201, 500] <==> codes[2] == 500)
  {
  }

  /** The enqueue itself is no answer. */
  lemma {:induction false} AnsweredAlike(m: Message, commands: set<string>, a: seq<Action>, b: seq<Action>)
    requires m.Complete? && AnsweredByFacts(m, commands, a) && Codes(a) == Codes(b)
    requires (DeletePar in a <==> DeletePar in b) && (RunCommand in a <==> RunCommand in b)
    requires a != [] && b != [] && a[0] == b[0]
    ensures AnsweredByFacts(m, commands, b)
  {
    hide Codes;
  }

  /** Without a queue the worker's part takes the place of the enqueue. */
  lemma ImmediateAnswers(m: Message, commands: set<string>, log: seq<Action>)
    requires m.Complete?
    ensures !Queues(m, commands) ==>
              AnsweredByFacts(m, commands, (log + HandlerScript(m, commands))[|log|..])
    ensures Queues(m, commands) ==>
              AnsweredByFacts(m, commands, (log + [DeletePar, Send(202)] + WorkerScript(m, commands))[|log|..])
  {
    ScriptCodes(m, commands);
    var h, w := HandlerScript(m, commands), WorkerScript(m, commands);
    assert Queues(m, commands) ==> h == [DeletePar, Send(202), Enqueue];
    hide Codes, AnsweredByFacts, HandlerScript, WorkerScript, Queues;
    if Queues(m, commands) {
      var now := [DeletePar, Send(202)] + w;
      assert (log + [DeletePar, Send(202)] + w)[|log|..] == now;
      CodesConcat([DeletePar, Send(202)], w);
      CodesConcat(h, w);
      CodesOfThree(DeletePar, Send(202), Enqueue);
      assert forall a :: a != Enqueue ==> (a in now <==> a in h + w);
      AnsweredAlike(m, commands, h + w, now);
    } else {
      assert h + [] == h && (log + h)[|log|..] == h;
    }
  }

  lemma FullAnswers(m: Message, commands: set<string>)
    ensures AnsweredByFacts(m, commands, FullScript(m, commands))
  {
    if m.Complete? {
      ScriptCodes(m, commands);
    } else if m.Prepare? {
      PrepareAnswers(m, commands);
    }
    hide Codes;
  }

  /** In every run, what message i has been answered is the beginning of its own sequence of answers. */
  lemma {:induction false} ResponsesFollowProtocol(inbox: seq<Message>, commands: set<string>, moves: seq<Move>, i: nat)
    requires i < |inbox|
    ensures var s := Run(Start(inbox, commands), moves);
            && Project(s.trace, i) <= FullScript(inbox[i], commands)
            && Codes(Project(s.trace, i)) <= Codes(FullScript(inbox[i], commands))
            && (inbox[i].Complete? ==> CompleteCodes(Codes(FullScript(inbox[i], commands))))
  {
    InvAlways(inbox, commands, moves);
    var s := Run(Start(inbox, commands), moves);
    assert AccountedFor(s, i);
    var done := Project(s.trace, i);
    hide Run, Project, Codes, Pending, HandlerScript, WorkerScript, Shape, Ordered;
    if inbox[i].Complete? {
      ScriptCodes(inbox[i], commands);
    }
    if i < s.next {
      var full := FullScript(inbox[i], commands);
      assert full == done + Pending(s, i);
      CodesConcat(done, Pending(s, i));
    } else {
      assert done == [];
      CodesConcat(done, done);
      assert done + done == done;
    }
  }

  /** Once the worker has consumed the stop sentinel, every message received has been dealt with completely. */
  lemma {:induction false} NothingOwedAfterStop(inbox: seq<Message>, commands: set<string>, moves: seq<Move>, i: nat)
    requires i < Run(Start(inbox, commands), moves).next
    requires Run(Start(inbox, commands), moves).worker.Done?
    ensures i < |inbox|
    ensures Project(Run(Start(inbox, commands), moves).trace, i) == FullScript(inbox[i], commands)
    ensures AnsweredByFacts(inbox[i], commands, Project(Run(Start(inbox, commands), moves).trace, i))
  {
    InvAlways(inbox, commands, moves);
    var s := Run(Start(inbox, commands), moves);
    assert AccountedFor(s, i);
    hide Run, Project, FullScript, Ordered, AnsweredByFacts;
    assert Pending(s, i) == [];
    assert Project(s.trace, i) + [] == Project(s.trace, i);
    FullAnswers(inbox[i], commands);
  }

  lemma {:induction false} NotReceivedNotDone(inbox: seq<Message>, commands: set<string>, moves: seq<Move>, i: nat)
    requires i < |inbox|
    ensures var s := Run(Start(inbox, commands), moves);
            i >= s.next ==> Codes(Project(s.trace, i)) == []
  {
    InvAlways(inbox, commands, moves);
    var s := Run(Start(inbox, commands), moves);
    assert AccountedFor(s, i);
    hide Run, Project, FullScript, Pending, Shape, Ordered;
    if i >= s.next {
      assert Project(s.trace, i) == [];
    }
  }

  /** A message that cannot be delivered is the last one that is received. */
  lemma {:induction false} NothingAfterUndeliverable(inbox: seq<Message>, commands: set<string>, moves: seq<Move>,
                                                     i: nat)
    requires i < |inbox| && inbox[i].Undeliverable?
    ensures var s := Run(Start(inbox, commands), moves);
            && s.inbox == inbox && s.next <= i + 1 && (s.next == i + 1 ==> s.stopping)
    decreases |moves|
  {
    hide HandlerScript, WorkerScript;
    if moves != [] {
      NothingAfterUndeliverable(inbox, commands, moves[..|moves| - 1], i);
    }
  }

  /** Whatever the agent is doing, it can be stopped as soon as the message in hand has been handled. */
  lemma {:induction false} CanBeStopped(s: System) returns (moves: seq<Move>)
    requires s.next > 0 || s.handler == []
    ensures Run(s, moves).stopping && Run(s, moves).next == s.next
    decreases |s.handler|
  {
    if s.stopping {
      moves := [];
    } else if s.handler == [] {
      moves := [Interrupt];
      assert [Interrupt][..0] == [];
      assert Run(s, []) == s;
    } else {
      HandleEffect(s);
      var rest := CanBeStopped(Next(s, Handle));
      moves := [Handle] + rest;
      assert [Handle][..0] == [] && Run(s, []) == s;
      RunConcat(s, [Handle], rest);
    }
  }

  // ----- the worker comes to its end -----

  /** The worker's next step. */
  function WorkerMove(s: System): Move { if s.worker.Idle? then Take else Work }

  /** How many steps of its own the worker needs to reach the sentinel: five for each message in the queue. */
  function Remaining(s: System): nat {
    (if s.worker.Busy? then |s.worker.script| + 1 else 0) + 5 * |Items(s.work)| + if s.worker.Done? then 0 else 1
  }

  lemma StopFacts(s: System)
    requires Shape(s) && s.stopping
    ensures s.handler == [] && (!s.worker.Done? ==> s.work != [])
    ensures s.worker.Done? ==> s.work == []
    ensures !s.worker.Done? && s.work[0].StopWorker? ==> |s.work| == 1
    ensures s.work != [] && s.work[0].Item? ==> s.work[0].msg < |s.inbox| && Queues(s.inbox[s.work[0].msg], s.commands)
  {
    hide HandlerScript, WorkerScript, Queues, Suffix;
  }

  /** After the stop nothing but the worker's own next step changes anything, and each brings the end nearer. */
  lemma WorkerProgress(s: System, m: Move)
    requires Shape(s) && s.stopping
    ensures Next(s, m).stopping
    ensures m != WorkerMove(s) || s.worker.Done? ==> Next(s, m) == s
    ensures !s.worker.Done? ==> Remaining(Next(s, WorkerMove(s))) == Remaining(s) - 1
  {
    hide Shape, Remaining;
    StopFacts(s);
    StoppedMoves(s, m);
    if !s.worker.Done? {
      hide Next;
      if s.worker.Idle? {
        TakeProgress(s);
      } else {
        WorkStepProgress(s);
      }
    }
  }

  lemma StoppedMoves(s: System, m: Move)
    requires s.stopping && s.handler == [] && (s.worker.Done? ==> s.work == [])
    ensures Next(s, m).stopping
    ensures m != WorkerMove(s) || s.worker.Done? ==> Next(s, m) == s
  {
    hide HandlerScript, WorkerScript;
  }

  lemma TakeProgress(s: System)
    requires s.worker.Idle? && s.work != [] && (s.work[0].StopWorker? ==> |s.work| == 1)
    requires s.work[0].Item? ==> s.work[0].msg < |s.inbox| && Queues(s.inbox[s.work[0].msg], s.commands)
    ensures Remaining(Next(s, Take)) == Remaining(s) - 1
  {
    hide HandlerScript, WorkerScript, Queues;
    ItemsHead(s.work);
    if s.work[0].Item? {
      WorkerShape(s.inbox[s.work[0].msg], s.commands);
    }
    hide Items;
  }

  lemma WorkStepProgress(s: System)
    requires s.worker.Busy?
    ensures Remaining(Next(s, Work)) == Remaining(s) - 1
  {
    hide Items;
  }

  /** How many of the moves are the worker's next step at the time. */
  function WorkerSteps(s: System, moves: seq<Move>): nat {
    if moves == [] then 0
    else
      var front := moves[..|moves| - 1];
      WorkerSteps(s, front) + if moves[|moves| - 1] == WorkerMove(Run(s, front)) then 1 else 0
  }

  lemma {:induction false} RemainingAfter(s: System, moves: seq<Move>)
    requires Inv(s) && s.stopping
    ensures var r := Run(s, moves);
            && Inv(r) && r.stopping
            && (r.worker.Done? || Remaining(r) == Remaining(s) - WorkerSteps(s, moves))
    decreases |moves|
  {
    if moves != [] {
      var front, last := moves[..|moves| - 1], moves[|moves| - 1];
      RemainingAfter(s, front);
      var r := Run(s, front);
      assert Shape(r);
      InvNext(r, last);
      WorkerProgress(r, last);
      hide Next, Inv, Remaining;
    }
  }

  lemma {:induction false} RunConcat(s: System, a: seq<Move>, b: seq<Move>)
    ensures Run(s, a + b) == Run(Run(s, a), b)
    decreases |b|
  {
    if b == [] {
      assert a + b == a;
    } else {
      assert (a + b)[..|a + b| - 1] == a + b[..|b| - 1];
      RunConcat(s, a, b[..|b| - 1]);
    }
  }

  /**
   * Once the stop sentinel is queued, whatever the interleaving, the worker has come to its end by the time it
   * has made as many steps as Remaining says; and then every message received has been dealt with completely.
   */
  lemma {:induction false} StoppedWorkerFinishes(inbox: seq<Message>, commands: set<string>, moves: seq<Move>,
                                                 later: seq<Move>, i: nat)
    requires Run(Start(inbox, commands), moves).stopping
    requires WorkerSteps(Run(Start(inbox, commands), moves), later) >= Remaining(Run(Start(inbox, commands), moves))
    ensures var r := Run(Start(inbox, commands), moves + later);
            && r.worker.Done?
            && (i < r.next ==> i < |inbox| && Project(r.trace, i) == FullScript(inbox[i], commands)
                               && AnsweredByFacts(inbox[i], commands, Project(r.trace, i)))
  {
    var s := Run(Start(inbox, commands), moves);
    InvAlways(inbox, commands, moves);
    RemainingAfter(s, later);
    RunConcat(Start(inbox, commands), moves, later);
    var r := Run(Start(inbox, commands), moves + later);
    assert !r.worker.Done? ==> Remaining(r) >= 1;
    hide Run, Remaining, WorkerSteps, FullScript, Project, Inv, AnsweredByFacts;
    if i < r.next {
      NothingOwedAfterStop(inbox, commands, moves + later, i);
    }
  }

  /** Commands run in the order in which their requests were queued, which is the order of the requests. */
  lemma {:induction false} CommandsRunInQueueOrder(inbox: seq<Message>, commands: set<string>, moves: seq<Move>)
    ensures var s := Run(Start(inbox, commands), moves);
            && Order(s.trace, RunCommand) <= Order(s.trace, Enqueue)
            && Increasing(Order(s.trace, Enqueue), |inbox|)
  {
    hide Run, Order, Items, Start, Shape, AccountedFor, Increasing;
    InvAlways(inbox, commands, moves);
    var s := Run(Start(inbox, commands), moves);
    OrderOfRun(s);
  }

  lemma OrderOfRun(s: System)
    requires Shape(s) && Ordered(s)
    ensures Order(s.trace, RunCommand) <= Order(s.trace, Enqueue) && Increasing(Order(s.trace, Enqueue), |s.inbox|)
  {
    hide Order, Items, HandlerScript, WorkerScript, Queues, Suffix;
    assert s.next <= |s.inbox|;
    hide Shape;
    WiderBound(Order(s.trace, Enqueue), if s.handler == [] then s.next else s.next - 1, |s.inbox|);
    hide Increasing;
    assert Order(s.trace, RunCommand) <= s.taken <= s.taken + Items(s.work);
  }

  lemma {:induction false} InProject(trace: seq<Event>, i: nat, a: Action)
    requires a in Project(trace, i)
    ensures Event(i, a) in trace
    decreases |trace|
  {
    if trace != [] {
      var front, e := trace[..|trace| - 1], trace[|trace| - 1];
      if a in Project(front, i) {
        InProject(front, i, a);
        assert forall x :: x in front ==> x in trace;
      } else {
        assert e == Event(i, a) && e in trace;
      }
    }
  }

  /** The script of a request that queues: the deletion comes first, and the command is run once. */
  lemma FullShape(m: Message, commands: set<string>)
    ensures var f := FullScript(m, commands);
            && (Queues(m, commands) ==> |f| == 6 && f[0] == DeletePar && f[4] == RunCommand)
            && forall k :: 0 <= k < |f| && f[k] == RunCommand ==> Queues(m, commands) && k == 4
  {
    hide Queues, HandlerScript, WorkerScript;
    HandlerShape(m, commands);
    if Queues(m, commands) {
      WorkerShape(m, commands);
      QueuedHandler(m, commands);
    }
  }

  lemma QueuedHandler(m: Message, commands: set<string>)
    requires Queues(m, commands)
    ensures HandlerScript(m, commands) == [DeletePar, Send(202), Enqueue]
  {
  }

  lemma DeleteBeforeRun(m: Message, commands: set<string>, done: seq<Action>)
    requires done + [RunCommand] <= FullScript(m, commands)
    ensures DeletePar in done && RunCommand !in done
  {
    hide *;
    var f := FullScript(m, commands);
    FullShape(m, commands);
    assert forall k :: 0 <= k <= |done| ==> (done + [RunCommand])[k] == f[k];
    assert (done + [RunCommand])[|done|] == RunCommand && f[|done|] == RunCommand;
    assert forall k :: 0 <= k < |done| ==> done[k] == (done + [RunCommand])[k];
    assert done[0] == DeletePar;
  }

  lemma {:induction false} ProjectPrefix(trace: seq<Event>, n: nat, i: nat)
    requires n <= |trace|
    ensures Project(trace[..n], i) <= Project(trace, i)
    decreases |trace| - n
  {
    if n == |trace| {
      assert trace[..n] == trace;
    } else {
      ProjectPrefix(trace, n + 1, i);
      assert trace[..n + 1] == trace[..n] + [trace[n]];
      ProjectAppend(trace[..n], trace[n], i);
    }
  }

  /** A command runs at most once, and only after the upload's PAR has been deleted. */
  lemma {:induction false} CommandAfterDeletion(inbox: seq<Message>, commands: set<string>, moves: seq<Move>, n: nat)
    requires n < |Run(Start(inbox, commands), moves).trace|
    requires Run(Start(inbox, commands), moves).trace[n].action == RunCommand
    ensures var trace := Run(Start(inbox, commands), moves).trace;
            var i := trace[n].msg;
            Event(i, DeletePar) in trace[..n] && Event(i, RunCommand) !in trace[..n]
  {
    hide *;
    var trace := Run(Start(inbox, commands), moves).trace;
    var i := trace[n].msg;
    ProjectPrefix(trace, n + 1, i);
    assert trace[..n + 1] == trace[..n] + [trace[n]];
    ProjectAppend(trace[..n], trace[n], i);
    var done := Project(trace[..n], i);
    RunPrefix(inbox, commands, moves, i, done);
    DeleteBeforeRun(inbox[i], commands, done);
    InProject(trace[..n], i, DeletePar);
    if Event(i, RunCommand) in trace[..n] {
      FromTrace(trace[..n], i, RunCommand);
    }
  }

  lemma {:induction false} RunPrefix(inbox: seq<Message>, commands: set<string>, moves: seq<Move>, i: nat,
                                     part: seq<Action>)
    requires part + [RunCommand] <= Project(Run(Start(inbox, commands), moves).trace, i)
    ensures i < |inbox| && part + [RunCommand] <= FullScript(inbox[i], commands)
  {
    hide Run, Start, Project, Pending, Shape, Ordered, FullScript;
    InvAlways(inbox, commands, moves);
    var s := Run(Start(inbox, commands), moves);
    assert AccountedFor(s, i);
    var all := Project(s.trace, i) + Pending(s, i);
    assert part + [RunCommand] <= all && |all| > 0;
    assert i < s.next && i < |s.inbox| && s.inbox == inbox;
    assert all == FullScript(s.inbox[i], s.commands);
  }

  lemma {:induction false} FromTrace(trace: seq<Event>, i: nat, a: Action)
    requires Event(i, a) in trace
    ensures a in Project(trace, i)
    decreases |trace|
  {
    var front, e := trace[..|trace| - 1], trace[|trace| - 1];
    assert trace == front + [e];
    if e != Event(i, a) {
      FromTrace(front, i, a);
    }
  }
}
