/** The device's wait for an answer, and what it sees of the agent's protocol. */
module DeviceWait {
  import opened Wrappers
  import opened FileAgent

  datatype Response = Response(op: string, id: string, code: int)

  predicate Matches(r: Response, id: string, op: string) { r.id == id && r.op == op }
  predicate Terminal(code: int) { code == 200 || code == 400 || code == 422 || code == 500 }

  /** The shortest window, in milliseconds, that the terminal wait gives to one response. */
  const MIN_WINDOW: nat := 100

  /** The responses queue: its arrivals and their times in milliseconds, and a clock that moves while waiting. */
  class Responses {
    const arrivals: seq<Response>
    const times: seq<nat>
    var next: nat
    var now: nat

    constructor (arrivals: seq<Response>, times: seq<nat>)
      requires |times| == |arrivals| && forall i, j :: 0 <= i < j < |times| ==> times[i] <= times[j]
      ensures Valid() && this.arrivals == arrivals && this.times == times && next == 0 && now == 0
    {
      this.arrivals, this.times, next, now := arrivals, times, 0, 0;
    }

    ghost predicate Valid()
      reads this
    {
      && |times| == |arrivals| && next <= |arrivals|
      && forall i, j :: 0 <= i < j < |times| ==> times[i] <= times[j]
    }

    /** wait_for_response: the next response of that operation and transaction; others are dropped. */
    method WaitForResponse(id: string, op: string, timeout: nat) returns (r: Option<Response>)
      requires Valid()
      modifies this
      ensures Valid() && old(next) <= next && old(now) <= now <= old(now) + timeout
      ensures r.Some? ==> next > old(next) && r.value == arrivals[next - 1] && Matches(r.value, id, op)
      ensures r.Some? ==> times[next - 1] <= now
      ensures r.Some? ==> forall k :: old(next) <= k < next - 1 ==> !Matches(arrivals[k], id, op)
      ensures r.None? ==> forall k :: old(next) <= k < next ==> !Matches(arrivals[k], id, op)
      ensures r.None? ==> now == old(now) + timeout && (timeout > 0 ==> next == |arrivals| || times[next] >= now)
    {
      var end := now + timeout;
      while now < end
        invariant Valid() && old(next) <= next && old(now) <= now <= end
        invariant now == old(now) || (next > 0 && times[next - 1] == now)
        invariant forall k :: old(next) <= k < next ==> !Matches(arrivals[k], id, op)
        decreases |arrivals| - next, end - now
      {
        if next == |arrivals| || times[next] > end {
          now := end;
          return None;
        }
        if times[next] > now {
          now := times[next];
        }
        var response := arrivals[next];
        next := next + 1;
        if response.id == id && response.op == op {
          return Some(response);
        }
      }
      return None;
    }

    /**
     * wait_for_terminal_response: answers with other codes are passed over. Each of them opens a new window,
     * so an answer may be accepted after the deadline, but no later than one shortest window for each; and a
     * timeout has waited at least one shortest window since the last of them.
     */
    method WaitForTerminal(id: string, op: string, timeout: nat) returns (r: Option<Response>)
      requires Valid()
      modifies this
      ensures Valid() && old(next) <= next
      ensures r.Some? ==>
                && next > old(next) && r.value == arrivals[next - 1]
                && Matches(r.value, id, op) && Terminal(r.value.code)
      ensures var n := if r.Some? then next - 1 else next;
              && old(next) <= n
              && (forall k :: old(next) <= k < n ==> !(Matches(arrivals[k], id, op) && Terminal(arrivals[k].code)))
              && now <= old(now) + timeout + MIN_WINDOW * (1 + |Answers(arrivals[old(next)..n], id, op)|)
      ensures r.None? ==> now >= old(now) + timeout && (next == |arrivals| || times[next] >= now)
      ensures r.None? ==> now >= old(now) + MIN_WINDOW
      ensures r.None? ==> forall k :: old(next) <= k < next && Matches(arrivals[k], id, op) ==>
                            now >= times[k] + MIN_WINDOW
    {
      hide Answers, Matches, Terminal;
      var end := now + timeout;
      ghost var from := next;
      while true
        invariant Valid() && from <= next
        invariant forall k :: from <= k < next ==> !(Matches(arrivals[k], id, op) && Terminal(arrivals[k].code))
        invariant now <= end + MIN_WINDOW * |Answers(arrivals[from..next], id, op)|
        invariant old(now) <= now && forall k :: from <= k < next && Matches(arrivals[k], id, op) ==> times[k] <= now
        decreases |arrivals| - next
      {
        ghost var before := next;
        var window := if now < end && end - now > MIN_WINDOW then end - now else MIN_WINDOW;
        r := WaitForResponse(id, op, window);
        SkippedDoNotAnswer(arrivals, from, before, if r.Some? then next - 1 else next, id, op);
        if r.None? || Terminal(r.value.code) {
          return;
        }
        AnswersTo(arrivals, from, next, id, op);
      }
    }

    /**
     * The waits of run_demo in their order: for the answer to the prepare-upload, then, when the file has been
     * uploaded, for the terminal answer to the complete-upload. The demo succeeds if and only if the first wait, up
     * to from, has ended with a 200, the upload went well, and the second one with a 200. A wait that ends without
     * an answer has passed over none, and its timeout is over.
     */
    method RunDemo(id: string, timeout: nat, uploaded: bool) returns (ok: bool, ghost from: nat)
      requires Valid()
      modifies this
      ensures Valid() && old(next) <= from <= next
      ensures ok <==>
                && uploaded && old(next) < from < next
                && FirstMatch(arrivals, old(next), from - 1, id, PREPARE) && arrivals[from - 1].code == 200
                && FirstTerminal(arrivals, from, next - 1, id, COMPLETE) && arrivals[next - 1].code == 200
      ensures (old(next) < from && FirstMatch(arrivals, old(next), from - 1, id, PREPARE))
              || ((forall k :: old(next) <= k < from ==> !Matches(arrivals[k], id, PREPARE))
                  && now >= old(now) + timeout)
      ensures uploaded && old(next) < from && FirstMatch(arrivals, old(next), from - 1, id, PREPARE)
              && arrivals[from - 1].code == 200 ==>
                || (from < next && FirstTerminal(arrivals, from, next - 1, id, COMPLETE))
                || ((forall k :: from <= k < next ==>
                       !(Matches(arrivals[k], id, COMPLETE) && Terminal(arrivals[k].code)))
                    && now >= old(now) + timeout && (next == |arrivals| || times[next] >= now))
    {
      hide Matches, Terminal;
      ok, from := false, next;
      var prepared := WaitForResponse(id, PREPARE, timeout);
      from := next;
      if prepared.None? || prepared.value.code != 200 || !uploaded {
        return;
      }
      var completed := WaitForTerminal(id, COMPLETE, timeout);
      ok := completed.Some? && completed.value.code == 200;
    }
  }

  const PREPARE := "prepare-upload"
  const COMPLETE := "complete-upload"

  /** The first arrival, from one on, of that operation and transaction. */
  ghost predicate FirstMatch(arrivals: seq<Response>, from: nat, at: nat, id: string, op: string) {
    && from <= at < |arrivals| && Matches(arrivals[at], id, op)
    && forall k :: from <= k < at ==> !Matches(arrivals[k], id, op)
  }

  /** The first one with a terminal code. */
  ghost predicate FirstTerminal(arrivals: seq<Response>, from: nat, at: nat, id: string, op: string) {
    && from <= at < |arrivals| && Matches(arrivals[at], id, op) && Terminal(arrivals[at].code)
    && forall k :: from <= k < at ==> !(Matches(arrivals[k], id, op) && Terminal(arrivals[k].code))
  }

  lemma {:induction false} AnswersTo(arrivals: seq<Response>, from: nat, n: nat, id: string, op: string)
    requires from < n <= |arrivals| && Matches(arrivals[n - 1], id, op)
    ensures |Answers(arrivals[from..n], id, op)| == |Answers(arrivals[from..n - 1], id, op)| + 1
  {
    assert arrivals[from..n] == arrivals[from..n - 1] + [arrivals[n - 1]];
    AnswersAppend(arrivals[from..n - 1], arrivals[n - 1], id, op);
  }

  lemma {:induction false} SkippedDoNotAnswer(arrivals: seq<Response>, from: nat, a: nat, b: nat,
                                              id: string, op: string)
    requires from <= a <= b <= |arrivals| && forall k :: a <= k < b ==> !Matches(arrivals[k], id, op)
    ensures Answers(arrivals[from..b], id, op) == Answers(arrivals[from..a], id, op)
    decreases b
  {
    if a < b {
      SkippedDoNotAnswer(arrivals, from, a, b - 1, id, op);
      assert arrivals[from..b] == arrivals[from..b - 1] + [arrivals[b - 1]];
      AnswersAppend(arrivals[from..b - 1], arrivals[b - 1], id, op);
    }
  }

  /** The codes of the arrivals that answer the operation and transaction. */
  function Answers(arrivals: seq<Response>, id: string, op: string): seq<int> {
    if arrivals == [] then []
    else
      var last := arrivals[|arrivals| - 1];
      Answers(arrivals[..|arrivals| - 1], id, op) + if Matches(last, id, op) then [last.code] else []
  }

  lemma {:induction false} AnswersPrefix(arrivals: seq<Response>, n: nat, id: string, op: string)
    requires n <= |arrivals|
    ensures Answers(arrivals[..n], id, op) <= Answers(arrivals, id, op)
    decreases |arrivals|
  {
    if n == |arrivals| {
      assert arrivals[..n] == arrivals;
    } else {
      var front := arrivals[..|arrivals| - 1];
      assert front[..n] == arrivals[..n];
      AnswersPrefix(front, n, id, op);
    }
  }

  lemma {:induction false} NoTerminalAnswers(arrivals: seq<Response>, id: string, op: string)
    requires forall k :: 0 <= k < |arrivals| ==> !(Matches(arrivals[k], id, op) && Terminal(arrivals[k].code))
    ensures forall k :: 0 <= k < |Answers(arrivals, id, op)| ==> !Terminal(Answers(arrivals, id, op)[k])
    decreases |arrivals|
  {
    if arrivals != [] {
      NoTerminalAnswers(arrivals[..|arrivals| - 1], id, op);
    }
  }

  /** Codes with at most one terminal one, at the end, after the agent's progress codes. */
  lemma FirstTerminalIsLast(codes: seq<int>, seen: seq<int>, code: int)
    requires CompleteCodes(codes) && seen + [code] <= codes && Terminal(code)
    requires forall k :: 0 <= k < |seen| ==> !Terminal(seen[k])
    ensures (seen == [] || seen == [202, 201]) && seen + [code] == codes
  {
    assert (seen + [code])[|seen|] == code && codes[|seen|] == code;
    assert forall k :: 0 <= k < |seen| ==> codes[k] == (seen + [code])[k] == seen[k];
  }

  /** The last code of each sequence of answers, and no other, ends the wait. */
  lemma TerminalExactlyLast(codes: seq<int>, k: nat)
    requires CompleteCodes(codes) && k < |codes|
    ensures Terminal(codes[k]) <==> k == |codes| - 1
  {
  }

  /** A code ends the wait exactly when some sequence of answers ends with it. */
  lemma TerminalIffLast(code: int)
    ensures Terminal(code) <==> exists codes :: CompleteCodes(codes) && codes[|codes| - 1] == code
  {
    if Terminal(code) {
      assert CompleteCodes([code]) && [code][0] == code;
    }
  }

  lemma {:induction false} AnswerArrived(arrivals: seq<Response>, id: string, op: string, k: nat) returns (at: nat)
    requires k < |Answers(arrivals, id, op)|
    ensures at < |arrivals| && Matches(arrivals[at], id, op) && arrivals[at].code == Answers(arrivals, id, op)[k]
    decreases |arrivals|
  {
    var front := arrivals[..|arrivals| - 1];
    if k < |Answers(front, id, op)| {
      at := AnswerArrived(front, id, op, k);
    } else {
      at := |arrivals| - 1;
    }
  }

  lemma {:induction false} FirstOf(arrivals: seq<Response>, from: nat, at: nat, id: string, op: string)
    returns (first: nat)
    requires from <= at < |arrivals| && Matches(arrivals[at], id, op) && Terminal(arrivals[at].code)
    ensures first <= at && FirstTerminal(arrivals, from, first, id, op)
    decreases at
  {
    hide Matches, Terminal;
    if k :| from <= k < at && Matches(arrivals[k], id, op) && Terminal(arrivals[k].code) {
      first := FirstOf(arrivals, from, k, id, op);
    } else {
      first := at;
    }
  }

  /** Once all answers to a complete-upload have arrived, there is one that ends a wait begun before them. */
  lemma {:induction false} AnsweredWaitEnds(arrivals: seq<Response>, from: nat, id: string, op: string, codes: seq<int>)
    returns (at: nat)
    requires CompleteCodes(codes) && from <= |arrivals| && Answers(arrivals[from..], id, op) == codes
    ensures FirstTerminal(arrivals, from, at, id, op) && arrivals[at].code == codes[|codes| - 1]
  {
    hide Answers, Matches;
    TerminalExactlyLast(codes, |codes| - 1);
    at := AnswerArrived(arrivals[from..], id, op, |codes| - 1);
    at := FirstOf(arrivals, from, from + at, id, op);
    var seen := Answers(arrivals[from..at], id, op);
    assert arrivals[from..][..at - from] == arrivals[from..at];
    assert arrivals[from..][..at - from + 1] == arrivals[from..at] + [arrivals[at]];
    AnswersAppend(arrivals[from..at], arrivals[at], id, op);
    AnswersPrefix(arrivals[from..], at - from + 1, id, op);
    NoTerminalAnswers(arrivals[from..at], id, op);
    FirstTerminalIsLast(codes, seen, arrivals[at].code);
    assert codes[|codes| - 1] == (seen + [arrivals[at].code])[|seen|];
  }

  // ----- the channel -----

  /** What the device receives: the agent's responses mixed with arbitrary other traffic. */
  datatype Arrival = FromAgent(response: Response) | Unrelated(response: Response)

  function Received(traffic: seq<Arrival>): seq<Response> {
    if traffic == [] then []
    else Received(traffic[..|traffic| - 1]) + [traffic[|traffic| - 1].response]
  }

  function AgentPart(traffic: seq<Arrival>): seq<Response> {
    if traffic == [] then []
    else
      var last := traffic[|traffic| - 1];
      var front := AgentPart(traffic[..|traffic| - 1]);
      if last.FromAgent? then front + [last.response] else front
  }

  /** The operation and transaction of a message. */
  datatype Key = Key(op: string, id: string)

  /** The responses that the agent sends in a run, in order. */
  function AgentResponses(trace: seq<Event>, keys: seq<Key>): seq<Response> {
    if trace == [] then []
    else
      var e := trace[|trace| - 1];
      var front := AgentResponses(trace[..|trace| - 1], keys);
      if e.action.Send? && e.msg < |keys| then front + [Response(keys[e.msg].op, keys[e.msg].id, e.action.code)]
      else front
  }

  lemma {:induction false} UnrelatedTrafficDoesNotAnswer(traffic: seq<Arrival>, id: string, op: string)
    requires forall a :: a in traffic && a.Unrelated? ==> !Matches(a.response, id, op)
    ensures Answers(Received(traffic), id, op) == Answers(AgentPart(traffic), id, op)
    decreases |traffic|
  {
    if traffic != [] {
      var front, last := traffic[..|traffic| - 1], traffic[|traffic| - 1];
      UnrelatedTrafficDoesNotAnswer(front, id, op);
      assert last in traffic;
      AnswersAppend(Received(front), last.response, id, op);
      AnswersAppend(AgentPart(front), last.response, id, op);
    }
  }

  lemma {:induction false} AnswersAppend(arrivals: seq<Response>, r: Response, id: string, op: string)
    ensures Answers(arrivals + [r], id, op) == if Matches(r, id, op) then Answers(arrivals, id, op) + [r.code]
                                               else Answers(arrivals, id, op)
  {
    assert (arrivals + [r])[..|arrivals|] == arrivals;
  }

  lemma {:induction false} CodesAppend(script: seq<Action>, a: Action)
    ensures Codes(script + [a]) == if a.Send? then Codes(script) + [a.code] else Codes(script)
  {
    assert (script + [a])[..|script|] == script;
  }

  /** With a fresh transaction the agent's answers to it are those to the one message. */
  lemma {:induction false} FreshTransactionAnswers(trace: seq<Event>, keys: seq<Key>, i: nat)
    requires i < |keys| && forall j :: 0 <= j < |keys| && j != i ==> keys[j] != keys[i]
    ensures Answers(AgentResponses(trace, keys), keys[i].id, keys[i].op) == Codes(Project(trace, i))
    decreases |trace|
  {
    if trace != [] {
      var front, e := trace[..|trace| - 1], trace[|trace| - 1];
      FreshTransactionAnswers(front, keys, i);
      CodesAppend(Project(front, i), e.action);
      assert Project(front, i) + [] == Project(front, i);
      if e.action.Send? && e.msg < |keys| {
        AnswersAppend(AgentResponses(front, keys), Response(keys[e.msg].op, keys[e.msg].id, e.action.code),
                      keys[i].id, keys[i].op);
      }
    }
  }

  /**
   * Over a lossless FIFO channel with arbitrary unrelated traffic and a fresh transaction, a terminal wait
   * that does not time out has skipped exactly the 202 and 201 of a queued command, if any, and returns the
   * one terminal answer of the request; nothing follows it.
   */
  lemma {:induction false} TerminalWaitReturnsOutcome(inbox: seq<Message>, commands: set<string>, moves: seq<Move>,
                                                      i: nat, keys: seq<Key>, traffic: seq<Arrival>, at: nat)
    requires i < |inbox| == |keys| && inbox[i].Complete?
    requires forall j :: 0 <= j < |keys| && j != i ==> keys[j] != keys[i]
    requires forall a :: a in traffic && a.Unrelated? ==> !Matches(a.response, keys[i].id, keys[i].op)
    requires AgentPart(traffic) <= AgentResponses(Run(Start(inbox, commands), moves).trace, keys)
    requires var r := Received(traffic);
             && at < |r| && Matches(r[at], keys[i].id, keys[i].op) && Terminal(r[at].code)
             && forall k :: 0 <= k < at ==> !(Matches(r[k], keys[i].id, keys[i].op) && Terminal(r[k].code))
    ensures var codes := Codes(FullScript(inbox[i], commands));
            var r := Received(traffic);
            var skipped := Answers(r[..at], keys[i].id, keys[i].op);
            && (skipped == [] || skipped == [202, 201])
            && codes == skipped + [r[at].code]
            && Answers(r, keys[i].id, keys[i].op) == codes
  {
    hide *;
    AnsweredByScript(inbox, commands, moves, i, keys, traffic);
    WaitOutcome(Received(traffic), at, keys[i].id, keys[i].op, Codes(FullScript(inbox[i], commands)));
  }

  lemma {:induction false} WaitOutcome(arrivals: seq<Response>, at: nat, id: string, op: string, codes: seq<int>)
    requires CompleteCodes(codes) && Answers(arrivals, id, op) <= codes
    requires at < |arrivals| && Matches(arrivals[at], id, op) && Terminal(arrivals[at].code)
    requires forall k :: 0 <= k < at ==> !(Matches(arrivals[k], id, op) && Terminal(arrivals[k].code))
    ensures var skipped := Answers(arrivals[..at], id, op);
            && (skipped == [] || skipped == [202, 201])
            && codes == skipped + [arrivals[at].code]
            && Answers(arrivals, id, op) == codes
  {
    assert arrivals[..at + 1][..at] == arrivals[..at];
    AnswersPrefix(arrivals, at + 1, id, op);
    NoTerminalAnswers(arrivals[..at], id, op);
    var seen := Answers(arrivals[..at], id, op);
    assert seen + [arrivals[at].code] <= codes;
    hide Answers, Terminal, Matches;
    FirstTerminalIsLast(codes, seen, arrivals[at].code);
  }

  // ----- the whole demo -----

  lemma {:induction false} AnswersConcat(a: seq<Response>, b: seq<Response>, id: string, op: string)
    ensures Answers(a + b, id, op) == Answers(a, id, op) + Answers(b, id, op)
    decreases |b|
  {
    if b == [] {
      assert a + b == a;
    } else {
      hide Answers, Matches;
      var front, last := b[..|b| - 1], b[|b| - 1];
      AnswersConcat(a, front, id, op);
      assert b == front + [last];
      assert a + b == (a + front) + [last];
      AnswersAppend(a + front, last, id, op);
      AnswersAppend(front, last, id, op);
    }
  }

  lemma {:induction false} ReceivedPrefix(traffic: seq<Arrival>, n: nat)
    requires n <= |traffic|
    ensures |Received(traffic)| == |traffic| && Received(traffic[..n]) == Received(traffic)[..n]
    decreases |traffic|
  {
    if n == |traffic| {
      assert traffic[..n] == traffic;
      if n > 0 {
        ReceivedPrefix(traffic[..n - 1], n - 1);
      }
    } else {
      var front := traffic[..|traffic| - 1];
      ReceivedPrefix(front, n);
      assert front[..n] == traffic[..n];
    }
  }

  /** With a fresh transaction, what has arrived for it is a beginning of what the agent has answered its message. */
  lemma {:induction false} ArrivedAnswers(inbox: seq<Message>, commands: set<string>, moves: seq<Move>, i: nat,
                                          keys: seq<Key>, traffic: seq<Arrival>)
    requires i < |inbox| == |keys| && forall j :: 0 <= j < |keys| && j != i ==> keys[j] != keys[i]
    requires forall a :: a in traffic && a.Unrelated? ==> !Matches(a.response, keys[i].id, keys[i].op)
    requires AgentPart(traffic) <= AgentResponses(Run(Start(inbox, commands), moves).trace, keys)
    ensures Answers(Received(traffic), keys[i].id, keys[i].op)
            <= Codes(Project(Run(Start(inbox, commands), moves).trace, i))
  {
    hide *;
    var all := AgentResponses(Run(Start(inbox, commands), moves).trace, keys);
    FreshTransactionAnswers(Run(Start(inbox, commands), moves).trace, keys, i);
    UnrelatedTrafficDoesNotAnswer(traffic, keys[i].id, keys[i].op);
    assert all[..|AgentPart(traffic)|] == AgentPart(traffic);
    AnswersPrefix(all, |AgentPart(traffic)|, keys[i].id, keys[i].op);
  }

  lemma {:induction false} SilentPrefix(arrivals: seq<Response>, id: string, op: string)
    requires Answers(arrivals, id, op) == []
    ensures forall k :: 0 <= k < |arrivals| ==> !Matches(arrivals[k], id, op)
    decreases |arrivals|
  {
    if arrivals != [] {
      SilentPrefix(arrivals[..|arrivals| - 1], id, op);
    }
  }

  lemma {:induction false} SilentArrivals(arrivals: seq<Response>, id: string, op: string)
    requires forall k :: 0 <= k < |arrivals| ==> !Matches(arrivals[k], id, op)
    ensures Answers(arrivals, id, op) == []
    decreases |arrivals|
  {
    if arrivals != [] {
      SilentArrivals(arrivals[..|arrivals| - 1], id, op);
    }
  }

  /** The prepare wait has returned the one answer to the prepare-upload. */
  lemma {:induction false} PrepareWaitReturnsAnswer(inbox: seq<Message>, commands: set<string>, moves: seq<Move>,
                                                    p: nat, keys: seq<Key>, traffic: seq<Arrival>, at: nat)
    requires p < |inbox| == |keys| && inbox[p].Prepare?
    requires forall j :: 0 <= j < |keys| && j != p ==> keys[j] != keys[p]
    requires forall a :: a in traffic && a.Unrelated? ==> !Matches(a.response, keys[p].id, keys[p].op)
    requires AgentPart(traffic) <= AgentResponses(Run(Start(inbox, commands), moves).trace, keys)
    requires FirstMatch(Received(traffic), 0, at, keys[p].id, keys[p].op)
    ensures Codes(FullScript(inbox[p], commands)) == [Received(traffic)[at].code]
  {
    hide *;
    AnsweredByScript(inbox, commands, moves, p, keys, traffic);
    PrepareHasOneAnswer(inbox[p], commands);
    OnlyAnswer(Received(traffic), at, keys[p].id, keys[p].op, Codes(FullScript(inbox[p], commands)));
  }

  lemma {:induction false} AnsweredByScript(inbox: seq<Message>, commands: set<string>, moves: seq<Move>, i: nat,
                                            keys: seq<Key>, traffic: seq<Arrival>)
    requires i < |inbox| == |keys| && forall j :: 0 <= j < |keys| && j != i ==> keys[j] != keys[i]
    requires forall a :: a in traffic && a.Unrelated? ==> !Matches(a.response, keys[i].id, keys[i].op)
    requires AgentPart(traffic) <= AgentResponses(Run(Start(inbox, commands), moves).trace, keys)
    ensures Answers(Received(traffic), keys[i].id, keys[i].op) <= Codes(FullScript(inbox[i], commands))
    ensures inbox[i].Complete? ==> CompleteCodes(Codes(FullScript(inbox[i], commands)))
  {
    hide *;
    ArrivedAnswers(inbox, commands, moves, i, keys, traffic);
    ResponsesFollowProtocol(inbox, commands, moves, i);
  }

  lemma {:induction false} OnlyAnswer(r: seq<Response>, at: nat, id: string, op: string, codes: seq<int>)
    requires FirstMatch(r, 0, at, id, op) && Answers(r, id, op) <= codes && |codes| == 1
    ensures codes == [r[at].code]
  {
    hide Answers, Matches;
    SilentArrivals(r[..at], id, op);
    assert r[..at + 1] == r[..at] + [r[at]];
    AnswersAppend(r[..at], r[at], id, op);
    AnswersPrefix(r, at + 1, id, op);
  }

  lemma PrepareHasOneAnswer(m: Message, commands: set<string>)
    requires m.Prepare?
    ensures |Codes(FullScript(m, commands))| == 1
    ensures Codes(FullScript(m, commands)) == [200] <==> m.dataValid && m.staged
  {
    PrepareAnswers(m, commands);
    assert HandlerScript(m, commands) + [] == HandlerScript(m, commands);
    hide Codes;
    assert [200][0] != [400][0] && [200][0] != [500][0];
    if m.dataValid && m.staged {
      assert [StagePar, Send(200)][0] == StagePar;
    }
  }

  /** Before the complete-upload is received nothing that arrives answers it. */
  lemma {:induction false} NothingBeforeReceived(inbox: seq<Message>, commands: set<string>, moves: seq<Move>, i: nat,
                                                 keys: seq<Key>, traffic: seq<Arrival>)
    requires i < |inbox| == |keys| && forall j :: 0 <= j < |keys| && j != i ==> keys[j] != keys[i]
    requires forall a :: a in traffic && a.Unrelated? ==> !Matches(a.response, keys[i].id, keys[i].op)
    requires AgentPart(traffic) <= AgentResponses(Run(Start(inbox, commands), moves).trace, keys)
    requires i >= Run(Start(inbox, commands), moves).next
    ensures Answers(Received(traffic), keys[i].id, keys[i].op) == []
    ensures forall k :: 0 <= k < |Received(traffic)| ==> !Matches(Received(traffic)[k], keys[i].id, keys[i].op)
  {
    hide Run, Project, Codes, AgentResponses, AgentPart, Answers, Received, Matches;
    ArrivedAnswers(inbox, commands, moves, i, keys, traffic);
    NotReceivedNotDone(inbox, commands, moves, i);
    SilentPrefix(Received(traffic), keys[i].id, keys[i].op);
  }

  /** What a final 200 to a complete-upload means. */
  lemma CompletedScript(m: Message, commands: set<string>, skipped: seq<int>, code: int)
    requires m.Complete? && Codes(FullScript(m, commands)) == skipped + [code]
    requires skipped == [] || skipped == [202, 201]
    ensures code == 200 <==>
              m.dataValid && m.par == Deleted && (HasCommand(m) ==> m.command.value in commands && m.result == Exit(0))
  {
    ScriptCodes(m, commands);
    hide Codes, FullScript;
    var codes := Codes(FullScript(m, commands));
    assert skipped == [] ==> codes == [code];
    assert skipped == [202, 201] ==> codes == [202, 201, code];
    assert [202, 201, code][2] == code && [202, 201, 200][2] == 200 && [200][0] == 200 && [code][0] == code;
  }

  /** A terminal wait that begins behind arrivals none of which answers it. */
  lemma {:induction false} WaitFrom(r: seq<Response>, from: nat, at: nat, id: string, op: string, codes: seq<int>)
    requires CompleteCodes(codes) && Answers(r, id, op) <= codes
    requires FirstTerminal(r, from, at, id, op) && Answers(r[..from], id, op) == []
    requires forall k :: 0 <= k < from ==> !Matches(r[..from][k], id, op)
    ensures var skipped := Answers(r[from..at], id, op);
            && (skipped == [] || skipped == [202, 201])
            && codes == skipped + [r[at].code] && Answers(r, id, op) == codes
  {
    hide Answers, Matches, Terminal, CompleteCodes;
    forall k | 0 <= k < at ensures !(Matches(r[k], id, op) && Terminal(r[k].code)) {
      if k < from {
        assert r[k] == r[..from][k];
      }
    }
    WaitOutcome(r, at, id, op, codes);
    assert r[..at] == r[..from] + r[from..at];
    AnswersConcat(r[..from], r[from..at], id, op);
    assert [] + Answers(r[from..at], id, op) == Answers(r[from..at], id, op);
  }

  /**
   * The demo in its order, on one queue of responses: the answer to the prepare-upload p has been waited for, by
   * then the agent has not received the complete-upload i, and from there on its terminal answer is waited for.
   * Over a lossless FIFO channel with arbitrary other traffic, a fresh transaction and every interleaving in the
   * agent, the first wait has returned the one answer to p, and the second has skipped exactly the 202 and 201
   * of i, if any, and returned its one terminal answer. The first is 200 exactly when the PAR was staged, the second
   * exactly when it was deleted and the command, if any, is a configured one and succeeded.
   */
  lemma {:induction false} DemoOutcome(inbox: seq<Message>, commands: set<string>, moves: seq<Move>, later: seq<Move>,
                                       p: nat, i: nat, keys: seq<Key>, traffic: seq<Arrival>, from: nat, at: nat)
    requires p < |inbox| == |keys| && i < |inbox| && inbox[p].Prepare? && inbox[i].Complete?
    requires forall j :: 0 <= j < |keys| && j != p ==> keys[j] != keys[p]
    requires forall j :: 0 <= j < |keys| && j != i ==> keys[j] != keys[i]
    requires forall a :: a in traffic && a.Unrelated? ==>
               !Matches(a.response, keys[p].id, keys[p].op) && !Matches(a.response, keys[i].id, keys[i].op)
    requires 0 < from <= |traffic|
    requires AgentPart(traffic) <= AgentResponses(Run(Start(inbox, commands), moves + later).trace, keys)
    requires AgentPart(traffic[..from]) <= AgentResponses(Run(Start(inbox, commands), moves).trace, keys)
    requires i >= Run(Start(inbox, commands), moves).next
    requires FirstMatch(Received(traffic), 0, from - 1, keys[p].id, keys[p].op)
    requires FirstTerminal(Received(traffic), from, at, keys[i].id, keys[i].op)
    ensures var r, codes := Received(traffic), Codes(FullScript(inbox[i], commands));
            var skipped := Answers(r[from..at], keys[i].id, keys[i].op);
            && Codes(FullScript(inbox[p], commands)) == [r[from - 1].code]
            && (skipped == [] || skipped == [202, 201]) && codes == skipped + [r[at].code]
            && Answers(r, keys[i].id, keys[i].op) == codes
            && (r[from - 1].code == 200 <==> inbox[p].dataValid && inbox[p].staged)
            && (r[at].code == 200 <==>
                  && inbox[i].dataValid && inbox[i].par == Deleted
                  && (HasCommand(inbox[i]) ==> inbox[i].command.value in commands && inbox[i].result == Exit(0)))
  {
    assert from <= at < |Received(traffic)|;
    hide *;
    var r, id, op, codes := Received(traffic), keys[i].id, keys[i].op, Codes(FullScript(inbox[i], commands));
    PrepareWaitReturnsAnswer(inbox, commands, moves + later, p, keys, traffic, from - 1);
    PrepareHasOneAnswer(inbox[p], commands);
    ReceivedPrefix(traffic, from);
    TrafficPrefix(traffic, from);
    NothingBeforeReceived(inbox, commands, moves, i, keys, traffic[..from]);
    AnsweredByScript(inbox, commands, moves + later, i, keys, traffic);
    WaitFrom(r, from, at, id, op, codes);
    CompletedScript(inbox[i], commands, Answers(r[from..at], id, op), r[at].code);
  }

  lemma TrafficPrefix(traffic: seq<Arrival>, n: nat)
    requires n <= |traffic|
    ensures forall a :: a in traffic[..n] ==> a in traffic
  {
  }
}
