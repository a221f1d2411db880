/**
 * The agent's two threads over the store of PARs. Only the dequeue thread uses the store, one request after the
 * other, so the outcome of a request is fixed by the requests before it, whatever the worker does meanwhile.
 */
module AgentStore {
  import opened Wrappers
  import opened FileAgent
  import opened ParService

  /** How a request to the bucket ends: one that raises may have taken effect all the same. */
  datatype Outcome = Works | Fails | WorksButRaises

  /** A dequeued request, and how its request to the bucket ends. */
  datatype Request =
    | Garbled(hasInstance: bool)
    | Lost
    | PrepareUpload(device: string, tx: string, dataValid: bool, par: Par, created: Outcome)
    | CompleteUpload(device: string, tx: string, dataValid: bool, deleted: Outcome,
                     command: Option<string>, result: RunOutcome)

  /** A request, and the ids of the PARs that the janitor deletes just before it. */
  datatype Arrival = Arrival(request: Request, pruned: set<nat>)

  /** The message as its handler meets it, and the bucket afterwards. */
  function Serve(store: seq<Par>, prefix: string, r: Request): (Message, seq<Par>) {
    match r
    case Garbled(hasInstance) => (Invalid(hasInstance), store)
    case Lost => (Undeliverable, store)
    case PrepareUpload(device, tx, dataValid, par, created) =>
      var sent := dataValid && ValidTransactionId(tx);
      (Prepare(dataValid, sent && created == Works),
       if sent && created != Fails then store + [par.(name := ParName(prefix, device, tx))] else store)
    case CompleteUpload(device, tx, dataValid, deleted, command, result) =>
      var i := IndexOfName(store, ParName(prefix, device, tx));
      if !dataValid || !ValidTransactionId(tx) then (Complete(dataValid, Raises, command, result), store)
      else if i.None? then (Complete(dataValid, ParOutcome.Missing, command, result), store)
      else
        (Complete(dataValid, if deleted == Works then Deleted else Raises, command, result),
         if deleted == Fails then store else Without(store, i.value))
  }

  /** The bucket after the first n arrivals. */
  function StoreAfter(store: seq<Par>, prefix: string, a: seq<Arrival>, n: nat): seq<Par>
    requires n <= |a|
  {
    if n == 0 then store
    else Serve(Kept(StoreAfter(store, prefix, a, n - 1), a[n - 1].pruned), prefix, a[n - 1].request).1
  }

  function MessageAt(store: seq<Par>, prefix: string, a: seq<Arrival>, i: nat): Message
    requires i < |a|
  {
    Serve(Kept(StoreAfter(store, prefix, a, i), a[i].pruned), prefix, a[i].request).0
  }

  function Inbox(store: seq<Par>, prefix: string, a: seq<Arrival>): (inbox: seq<Message>)
    ensures |inbox| == |a|
    ensures forall i :: 0 <= i < |a| ==> inbox[i] == MessageAt(store, prefix, a, i)
  {
    seq(|a|, i requires 0 <= i < |a| => MessageAt(store, prefix, a, i))
  }

  // ----- the requests of one transaction -----

  predicate IsPrepareOf(r: Request, device: string, tx: string) {
    r.PrepareUpload? && r.device == device && r.tx == tx
  }

  predicate IsCompleteOf(r: Request, device: string, tx: string) {
    r.CompleteUpload? && r.device == device && r.tx == tx
  }

  predicate Stages(m: Message) { m.Prepare? && m.dataValid && m.staged }
  predicate Deletes(m: Message) { m.Complete? && m.dataValid && m.par == Deleted }

  /** A prepare-upload that was answered 500 although its PAR exists. */
  predicate StagesUnseen(r: Request, device: string, tx: string) {
    IsPrepareOf(r, device, tx) && r.dataValid && r.created == WorksButRaises
  }

  function UnseenStagings(a: seq<Arrival>, device: string, tx: string, n: nat): set<nat>
    requires n <= |a|
  {
    set i: nat | 0 <= i < n && StagesUnseen(a[i].request, device, tx)
  }

  function Stagings(store: seq<Par>, prefix: string, a: seq<Arrival>, device: string, tx: string, n: nat): set<nat>
    requires n <= |a|
  {
    set i: nat | 0 <= i < n && IsPrepareOf(a[i].request, device, tx) && Stages(MessageAt(store, prefix, a, i))
  }

  function Deletions(store: seq<Par>, prefix: string, a: seq<Arrival>, device: string, tx: string, n: nat): set<nat>
    requires n <= |a|
  {
    set i: nat | 0 <= i < n && IsCompleteOf(a[i].request, device, tx) && Deletes(MessageAt(store, prefix, a, i))
  }

  /** A complete-upload that was answered 500 although its PAR was there and is gone. */
  predicate DeletesUnseen(store: seq<Par>, prefix: string, r: Request, device: string, tx: string) {
    && IsCompleteOf(r, device, tx) && r.dataValid && r.deleted == WorksButRaises
    && Live(store, ParName(prefix, device, tx)) > 0
  }

  /** The outcome of each request: a complete-upload finds a PAR exactly when one of its transaction is live. */
  lemma {:induction false} ServeOutcome(store: seq<Par>, prefix: string, r: Request)
    ensures var m := Serve(store, prefix, r).0;
            match r
            case Garbled(hasInstance) => m == Invalid(hasInstance)
            case Lost => m == Undeliverable
            case PrepareUpload(_, tx, dataValid, _, created) =>
              m == Prepare(dataValid, dataValid && ValidTransactionId(tx) && created == Works)
            case CompleteUpload(device, tx, dataValid, deleted, command, result) =>
              var live := Live(store, ParName(prefix, device, tx));
              && m.Complete? && m.dataValid == dataValid && m.command == command && m.result == result
              && (m.par == ParOutcome.Missing <==> dataValid && ValidTransactionId(tx) && live == 0)
              && (m.par == Deleted <==> dataValid && ValidTransactionId(tx) && live > 0 && deleted == Works)
  {
    if r.CompleteUpload? {
      LiveIffFound(store, ParName(prefix, r.device, r.tx));
    }
  }

  /** What one request does to the number of live PARs of one transaction. */
  lemma {:induction false} ServeLive(store: seq<Par>, prefix: string, r: Request, device: string, tx: string)
    requires ValidTransactionId(tx)
    ensures var (m, after) := Serve(store, prefix, r);
            var name := ParName(prefix, device, tx);
            Live(after, name)
            == Live(store, name) + (if IsPrepareOf(r, device, tx) && Stages(m) then 1 else 0)
               + (if StagesUnseen(r, device, tx) then 1 else 0)
               - (if IsCompleteOf(r, device, tx) && Deletes(m) then 1 else 0)
               - if DeletesUnseen(store, prefix, r, device, tx) then 1 else 0
  {
    var name := ParName(prefix, device, tx);
    match r
    case PrepareUpload(d, x, _, par, _) =>
      if ValidTransactionId(x) {
        ParNameInjective(prefix, d, x, device, tx);
        hide ParName, ValidTransactionId, Live;
        LiveAppend(store, par.(name := ParName(prefix, d, x)), name);
      }
    case CompleteUpload(d, x, _, _, _, _) =>
      if ValidTransactionId(x) {
        ParNameInjective(prefix, d, x, device, tx);
        LiveIffFound(store, ParName(prefix, d, x));
        hide ParName, ValidTransactionId, Live;
        var i := IndexOfName(store, ParName(prefix, d, x));
        if i.Some? {
          LiveWithout(store, i.value, name);
        }
      }
    case _ =>
  }

  /** The bucket as request i finds it. */
  function StoreAt(store: seq<Par>, prefix: string, a: seq<Arrival>, i: nat): seq<Par>
    requires i < |a|
  {
    Kept(StoreAfter(store, prefix, a, i), a[i].pruned)
  }

  /** The PARs of the transaction that the janitor has deleted before the first n requests. */
  function Pruned(store: seq<Par>, prefix: string, a: seq<Arrival>, device: string, tx: string, n: nat): nat
    requires n <= |a|
  {
    if n == 0 then 0
    else
      Pruned(store, prefix, a, device, tx, n - 1)
      + Dropped(StoreAfter(store, prefix, a, n - 1), a[n - 1].pruned, ParName(prefix, device, tx))
  }

  function UnseenDeletions(store: seq<Par>, prefix: string, a: seq<Arrival>, device: string, tx: string, n: nat):
    set<nat>
    requires n <= |a|
  {
    set i: nat | 0 <= i < n && DeletesUnseen(StoreAt(store, prefix, a, i), prefix, a[i].request, device, tx)
  }

  lemma {:induction false} LiveStep(store: seq<Par>, prefix: string, a: seq<Arrival>, device: string, tx: string,
                                    n: nat)
    requires ValidTransactionId(tx) && 0 < n <= |a|
    ensures var name := ParName(prefix, device, tx);
            Live(StoreAfter(store, prefix, a, n), name)
            == Live(StoreAfter(store, prefix, a, n - 1), name)
               + StagesOne(store, prefix, a, device, tx, n - 1) + UnseenOne(a, device, tx, n - 1)
               - DeletesOne(store, prefix, a, device, tx, n - 1) - VanishesOne(store, prefix, a, device, tx, n - 1)
               - (Pruned(store, prefix, a, device, tx, n) - Pruned(store, prefix, a, device, tx, n - 1))
  {
    hide Serve, Live, Kept, Dropped, ParName, ValidTransactionId, Stages, Deletes;
    hide IsPrepareOf, IsCompleteOf, StagesUnseen, DeletesUnseen;
    var name, before := ParName(prefix, device, tx), StoreAfter(store, prefix, a, n - 1);
    LiveKept(before, a[n - 1].pruned, name);
    ServeLive(Kept(before, a[n - 1].pruned), prefix, a[n - 1].request, device, tx);
  }

  function StagesOne(store: seq<Par>, prefix: string, a: seq<Arrival>, device: string, tx: string, i: nat): nat
    requires i < |a|
  {
    if IsPrepareOf(a[i].request, device, tx) && Stages(MessageAt(store, prefix, a, i)) then 1 else 0
  }

  function UnseenOne(a: seq<Arrival>, device: string, tx: string, i: nat): nat
    requires i < |a|
  {
    if StagesUnseen(a[i].request, device, tx) then 1 else 0
  }

  function DeletesOne(store: seq<Par>, prefix: string, a: seq<Arrival>, device: string, tx: string, i: nat): nat
    requires i < |a|
  {
    if IsCompleteOf(a[i].request, device, tx) && Deletes(MessageAt(store, prefix, a, i)) then 1 else 0
  }

  function VanishesOne(store: seq<Par>, prefix: string, a: seq<Arrival>, device: string, tx: string, i: nat): nat
    requires i < |a|
  {
    if DeletesUnseen(StoreAt(store, prefix, a, i), prefix, a[i].request, device, tx) then 1 else 0
  }

  lemma StagingsStep(store: seq<Par>, prefix: string, a: seq<Arrival>, device: string, tx: string, n: nat)
    requires 0 < n <= |a|
    ensures |Stagings(store, prefix, a, device, tx, n)|
            == |Stagings(store, prefix, a, device, tx, n - 1)| + StagesOne(store, prefix, a, device, tx, n - 1)
  {
    hide MessageAt, Stages, IsPrepareOf;
    var s := Stagings(store, prefix, a, device, tx, n - 1);
    assert Stagings(store, prefix, a, device, tx, n)
           == if StagesOne(store, prefix, a, device, tx, n - 1) == 1 then s + {n - 1} else s;
  }

  lemma UnseenStep(a: seq<Arrival>, device: string, tx: string, n: nat)
    requires 0 < n <= |a|
    ensures |UnseenStagings(a, device, tx, n)|
            == |UnseenStagings(a, device, tx, n - 1)| + UnseenOne(a, device, tx, n - 1)
  {
    hide StagesUnseen;
    var s := UnseenStagings(a, device, tx, n - 1);
    assert UnseenStagings(a, device, tx, n) == if UnseenOne(a, device, tx, n - 1) == 1 then s + {n - 1} else s;
  }

  lemma DeletionsStep(store: seq<Par>, prefix: string, a: seq<Arrival>, device: string, tx: string, n: nat)
    requires 0 < n <= |a|
    ensures |Deletions(store, prefix, a, device, tx, n)|
            == |Deletions(store, prefix, a, device, tx, n - 1)| + DeletesOne(store, prefix, a, device, tx, n - 1)
  {
    hide MessageAt, Deletes, IsCompleteOf;
    var s := Deletions(store, prefix, a, device, tx, n - 1);
    assert Deletions(store, prefix, a, device, tx, n)
           == if DeletesOne(store, prefix, a, device, tx, n - 1) == 1 then s + {n - 1} else s;
  }

  lemma UnseenDeletionsStep(store: seq<Par>, prefix: string, a: seq<Arrival>, device: string, tx: string, n: nat)
    requires 0 < n <= |a|
    ensures |UnseenDeletions(store, prefix, a, device, tx, n)|
            == |UnseenDeletions(store, prefix, a, device, tx, n - 1)|
               + VanishesOne(store, prefix, a, device, tx, n - 1)
  {
    hide StoreAt, DeletesUnseen;
    var s := UnseenDeletions(store, prefix, a, device, tx, n - 1);
    assert UnseenDeletions(store, prefix, a, device, tx, n)
           == if VanishesOne(store, prefix, a, device, tx, n - 1) == 1 then s + {n - 1} else s;
  }

  lemma {:induction false} NothingYet(store: seq<Par>, prefix: string, a: seq<Arrival>, device: string, tx: string)
    ensures StoreAfter(store, prefix, a, 0) == store && Deletions(store, prefix, a, device, tx, 0) == {}
    ensures Stagings(store, prefix, a, device, tx, 0) == UnseenStagings(a, device, tx, 0) == {}
    ensures UnseenDeletions(store, prefix, a, device, tx, 0) == {} && Pruned(store, prefix, a, device, tx, 0) == 0
  {
  }

  /**
   * After any number of requests of any devices: the live PARs of a transaction, those its complete-uploads have
   * deleted and those the janitor has, are together those there were and those its prepare-uploads have staged,
   * counting also what was staged or deleted by a request that raised.
   */
  lemma {:induction false} StoreBalance(store: seq<Par>, prefix: string, a: seq<Arrival>, device: string, tx: string,
                                        n: nat)
    requires ValidTransactionId(tx) && n <= |a|
    ensures var name := ParName(prefix, device, tx);
            Live(StoreAfter(store, prefix, a, n), name) + Pruned(store, prefix, a, device, tx, n)
            + |Deletions(store, prefix, a, device, tx, n)| + |UnseenDeletions(store, prefix, a, device, tx, n)|
            == Live(store, name) + |Stagings(store, prefix, a, device, tx, n)| + |UnseenStagings(a, device, tx, n)|
    decreases n
  {
    hide *;
    if n == 0 {
      NothingYet(store, prefix, a, device, tx);
    } else {
      StoreBalance(store, prefix, a, device, tx, n - 1);
      LiveStep(store, prefix, a, device, tx, n);
      StagingsStep(store, prefix, a, device, tx, n);
      UnseenStep(a, device, tx, n);
      DeletionsStep(store, prefix, a, device, tx, n);
      UnseenDeletionsStep(store, prefix, a, device, tx, n);
    }
  }

  // ----- answers in a run -----

  predicate Accepted(trace: seq<Event>, i: nat) {
    var codes := Codes(Project(trace, i));
    200 in codes || 202 in codes
  }

  /** The complete-upload requests of the transaction that have been answered 200 or 202. */
  function AcceptedCompletes(trace: seq<Event>, a: seq<Arrival>, device: string, tx: string): set<nat> {
    set i: nat | 0 <= i < |a| && IsCompleteOf(a[i].request, device, tx) && Accepted(trace, i)
  }

  /** The prepare-upload requests of the transaction that have been answered 200. */
  function AcceptedPrepares(trace: seq<Event>, a: seq<Arrival>, device: string, tx: string): set<nat> {
    set i: nat | 0 <= i < |a| && IsPrepareOf(a[i].request, device, tx) && Accepted(trace, i)
  }

  lemma RefusedCodes(m: Message, commands: set<string>)
    requires m.Complete? && !Deletes(m)
    ensures 200 !in Codes(FullScript(m, commands)) && 202 !in Codes(FullScript(m, commands))
  {
    hide Codes, WorkerScript;
    assert !Queues(m, commands);
    var h := HandlerScript(m, commands);
    assert h + [] == h && FullScript(m, commands) == h;
    CodesOfThree(Send(400), Enqueue, Enqueue);
    CodesOfThree(Send(500), Enqueue, Enqueue);
    CodesOfThree(Send(422), Enqueue, Enqueue);
  }

  /** Only a request that was received, and whose PAR was deleted, has been answered 200 or 202. */
  lemma {:induction false} AcceptedWasDeleted(inbox: seq<Message>, commands: set<string>, moves: seq<Move>, i: nat)
    requires i < |inbox| && inbox[i].Complete?
    requires Accepted(Run(Start(inbox, commands), moves).trace, i)
    ensures Deletes(inbox[i]) && i < Run(Start(inbox, commands), moves).next
  {
    var s := Run(Start(inbox, commands), moves);
    ResponsesFollowProtocol(inbox, commands, moves, i);
    NotReceivedNotDone(inbox, commands, moves, i);
    hide Run, Project, Codes, FullScript;
    if !Deletes(inbox[i]) {
      RefusedCodes(inbox[i], commands);
      PrefixMembers(Codes(Project(s.trace, i)), Codes(FullScript(inbox[i], commands)), 200);
      PrefixMembers(Codes(Project(s.trace, i)), Codes(FullScript(inbox[i], commands)), 202);
    }
  }

  lemma PrefixMembers(a: seq<int>, b: seq<int>, x: int)
    requires a <= b
    ensures x in a ==> x in b
  {
    assert forall k :: 0 <= k < |a| ==> a[k] == b[k];
  }

  /** A prepare that staged a PAR has been answered 200 by the time the next request is received. */
  lemma {:induction false} EarlierPrepareAnswered(inbox: seq<Message>, commands: set<string>, moves: seq<Move>, i: nat)
    requires i + 1 < Run(Start(inbox, commands), moves).next && i < |inbox| && Stages(inbox[i])
    ensures Accepted(Run(Start(inbox, commands), moves).trace, i)
  {
    var s := Run(Start(inbox, commands), moves);
    InvAlways(inbox, commands, moves);
    assert AccountedFor(s, i);
    hide Run, Codes, Project, Ordered, HandlerScript, WorkerScript;
    assert Pending(s, i) == [];
    assert Project(s.trace, i) + [] == Project(s.trace, i);
    StagedScript(inbox[i], commands);
  }

  lemma StagedScript(m: Message, commands: set<string>)
    requires Stages(m)
    ensures 200 in Codes(FullScript(m, commands))
  {
    hide Codes;
    assert FullScript(m, commands) == [StagePar, Send(200)];
    CodesOfThree(StagePar, Send(200), Enqueue);
  }

  lemma LastOf(s: set<nat>) returns (m: nat)
    requires s != {}
    ensures m in s && forall x :: x in s ==> x <= m
    decreases |s|
  {
    m :| m in s;
    var rest := s - {m};
    assert s == rest + {m};
    if rest != {} {
      var x := LastOf(rest);
      m := if x > m then x else m;
    }
  }

  lemma SubsetSize(a: set<nat>, b: set<nat>)
    requires a <= b
    ensures |a| <= |b|
  {
    assert b == a + (b - a) && a !! (b - a);
  }

  lemma {:induction false} CompletesWereDeleted(store: seq<Par>, prefix: string, a: seq<Arrival>,
                                                commands: set<string>, moves: seq<Move>, device: string, tx: string,
                                                n: nat)
    requires n <= |a|
    requires var trace := Run(Start(Inbox(store, prefix, a), commands), moves).trace;
             forall i :: i in AcceptedCompletes(trace, a, device, tx) ==> i < n
    ensures var trace := Run(Start(Inbox(store, prefix, a), commands), moves).trace;
            AcceptedCompletes(trace, a, device, tx) <= Deletions(store, prefix, a, device, tx, n)
  {
    hide Run, Accepted, Deletes, Serve;
    var inbox := Inbox(store, prefix, a);
    forall i | i in AcceptedCompletes(Run(Start(inbox, commands), moves).trace, a, device, tx)
      ensures i in Deletions(store, prefix, a, device, tx, n)
    {
      CompleteMessage(store, prefix, a, i);
      AcceptedWasDeleted(inbox, commands, moves, i);
    }
  }

  lemma CompleteMessage(store: seq<Par>, prefix: string, a: seq<Arrival>, i: nat)
    requires i < |a|
    ensures a[i].request.CompleteUpload? ==> MessageAt(store, prefix, a, i).Complete?
  {
  }

  lemma {:induction false} StagingsWereAnswered(store: seq<Par>, prefix: string, a: seq<Arrival>,
                                                commands: set<string>, moves: seq<Move>, device: string, tx: string,
                                                last: nat)
    requires last < |a| && last < Run(Start(Inbox(store, prefix, a), commands), moves).next
    requires IsCompleteOf(a[last].request, device, tx)
    ensures var trace := Run(Start(Inbox(store, prefix, a), commands), moves).trace;
            Stagings(store, prefix, a, device, tx, last + 1) <= AcceptedPrepares(trace, a, device, tx)
  {
    hide Run, Accepted, Stages, MessageAt;
    var inbox := Inbox(store, prefix, a);
    forall i | i in Stagings(store, prefix, a, device, tx, last + 1)
      ensures i in AcceptedPrepares(Run(Start(inbox, commands), moves).trace, a, device, tx)
    {
      assert i != last;
      EarlierPrepareAnswered(inbox, commands, moves, i);
    }
  }

  lemma {:induction false} LastComplete(store: seq<Par>, prefix: string, a: seq<Arrival>, commands: set<string>,
                                        moves: seq<Move>, device: string, tx: string, last: nat)
    requires var trace := Run(Start(Inbox(store, prefix, a), commands), moves).trace;
             last in AcceptedCompletes(trace, a, device, tx)
    ensures last < |a| && IsCompleteOf(a[last].request, device, tx)
    ensures last < Run(Start(Inbox(store, prefix, a), commands), moves).next
  {
    hide Run, Accepted, Serve;
    CompleteMessage(store, prefix, a, last);
    AcceptedWasDeleted(Inbox(store, prefix, a), commands, moves, last);
  }

  lemma {:induction false} NextWithin(store: seq<Par>, prefix: string, a: seq<Arrival>, commands: set<string>,
                                      moves: seq<Move>)
    ensures Run(Start(Inbox(store, prefix, a), commands), moves).next <= |a|
  {
    hide Run, Start;
    InvAlways(Inbox(store, prefix, a), commands, moves);
  }

  lemma UnseenWithin(a: seq<Arrival>, device: string, tx: string, m: nat, n: nat)
    requires m <= n <= |a|
    ensures |UnseenStagings(a, device, tx, m)| <= |UnseenStagings(a, device, tx, n)|
  {
    hide StagesUnseen;
    SubsetSize(UnseenStagings(a, device, tx, m), UnseenStagings(a, device, tx, n));
  }

  /**
   * Over any requests of any devices, any deletions by the janitor and every interleaving of the two threads,
   * the complete-uploads of one transaction that have been answered 200 or 202 never outnumber its
   * prepare-uploads answered 200, beyond the PARs it had at the start and those of received prepare-uploads
   * that were created although the request raised.
   */
  lemma {:induction false} CompletionsWithinPrepares(store: seq<Par>, prefix: string, a: seq<Arrival>,
                                                     commands: set<string>, moves: seq<Move>, device: string,
                                                     tx: string)
    requires ValidTransactionId(tx)
    ensures var s := Run(Start(Inbox(store, prefix, a), commands), moves);
            && s.next <= |a|
            && |AcceptedCompletes(s.trace, a, device, tx)|
               <= |AcceptedPrepares(s.trace, a, device, tx)| + Live(store, ParName(prefix, device, tx))
                  + |UnseenStagings(a, device, tx, s.next)|
  {
    hide *;
    var s := Run(Start(Inbox(store, prefix, a), commands), moves);
    var trace := s.trace;
    NextWithin(store, prefix, a, commands, moves);
    var completes, prepares := AcceptedCompletes(trace, a, device, tx), AcceptedPrepares(trace, a, device, tx);
    if completes != {} {
      var last := LastOf(completes);
      LastComplete(store, prefix, a, commands, moves, device, tx, last);
      CompletesWereDeleted(store, prefix, a, commands, moves, device, tx, last + 1);
      StagingsWereAnswered(store, prefix, a, commands, moves, device, tx, last);
      StoreBalance(store, prefix, a, device, tx, last + 1);
      SubsetSize(completes, Deletions(store, prefix, a, device, tx, last + 1));
      SubsetSize(Stagings(store, prefix, a, device, tx, last + 1), prepares);
      UnseenWithin(a, device, tx, last + 1, s.next);
    }
  }

  /**
   * In every run that has come to its end, a complete-upload with valid data and a valid transaction has been
   * answered 422 for want of a PAR exactly when none of its transaction was live at the time; and it has been
   * accepted exactly when one was, its deletion worked, and the command, if any, is a configured one.
   */
  lemma {:induction false} AnsweredByStore(store: seq<Par>, prefix: string, a: seq<Arrival>, commands: set<string>,
                                           moves: seq<Move>, i: nat)
    requires i < Run(Start(Inbox(store, prefix, a), commands), moves).next
    requires Run(Start(Inbox(store, prefix, a), commands), moves).worker.Done?
    requires i < |a| && a[i].request.CompleteUpload? && a[i].request.dataValid && ValidTransactionId(a[i].request.tx)
    ensures var r := a[i].request;
            var live := Live(StoreAt(store, prefix, a, i), ParName(prefix, r.device, r.tx));
            var codes := Codes(Project(Run(Start(Inbox(store, prefix, a), commands), moves).trace, i));
            var unknown := r.command != None && r.command != Some("") && r.command.value !in commands;
            && (codes == [422] <==> live == 0 || (r.deleted == Works && unknown))
            && (codes == [500] <==> live > 0 && r.deleted != Works)
            && (200 in codes || 202 in codes <==> live > 0 && r.deleted == Works && !unknown)
  {
    hide Run, Start, Project, Codes, Live, ParName, ValidTransactionId, Kept, StoreAfter;
    NothingOwedAfterStop(Inbox(store, prefix, a), commands, moves, i);
    ServeOutcome(StoreAt(store, prefix, a, i), prefix, a[i].request);
    var m := MessageAt(store, prefix, a, i);
    assert m == Serve(StoreAt(store, prefix, a, i), prefix, a[i].request).0;
    hide Serve;
    ScriptCodes(m, commands);
    CodesMembers(Codes(Project(Run(Start(Inbox(store, prefix, a), commands), moves).trace, i)));
  }

  lemma CodesMembers(codes: seq<int>)
    requires CompleteCodes(codes)
    ensures 200 in codes || 202 in codes <==> codes == [200] || codes == [202, 201, 200] || codes == [202, 201, 500]
  {
    assert codes[0] == 202 ==> 202 in codes;
  }
}
