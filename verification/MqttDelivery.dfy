/** What the command queue receives from a stream of fragmented messages. */
module MqttDelivery {
  import opened FixedWidth
  import opened Wrappers
  import opened MqttAssembly

  // ----- runs of the handler, with a consumer taking messages in between -----

  datatype Input = Data(event: Event) | Take

  /** The handler state and the messages the command task has received so far. */
  datatype System = System(state: State, taken: seq<Message>)

  function Next(s: System, i: Input): (r: System)
    requires s.state.asm.Valid() && (i.Data? ==> i.event.Admissible())
    ensures r.state.asm.Valid()
  {
    match i
    case Data(e) => s.(state := Step(s.state, e))
    case Take =>
      if s.state.queue == [] then s
      else System(s.state.(queue := s.state.queue[1..]), s.taken + [s.state.queue[0]])
  }

  ghost predicate AllAdmissible(inputs: seq<Input>) {
    forall i :: i in inputs && i.Data? ==> i.event.Admissible()
  }

  function Run(s: System, inputs: seq<Input>): (r: System)
    requires s.state.asm.Valid() && AllAdmissible(inputs)
    ensures r.state.asm.Valid()
    decreases |inputs|
  {
    if inputs == [] then s else Run(Next(s, inputs[0]), inputs[1..])
  }

  lemma {:induction false} RunConcat(s: System, a: seq<Input>, b: seq<Input>)
    requires s.state.asm.Valid() && AllAdmissible(a) && AllAdmissible(b)
    ensures AllAdmissible(a + b) && Run(s, a + b) == Run(Run(s, a), b)
    decreases |a|
  {
    if a == [] {
      assert a + b == b;
    } else {
      assert (a + b)[1..] == a[1..] + b;
      RunConcat(Next(s, a[0]), a[1..], b);
    }
  }

  // ----- senders -----

  /** A fragment, and how often the consumer takes from the queue before the next one. */
  datatype Piece = Piece(data: seq<byte>, takes: nat)

  /** A message as the broker delivers it: contiguous pieces in order. */
  datatype Sent = Sent(topic: seq<byte>, pieces: seq<Piece>)

  function Joined(pieces: seq<Piece>): seq<byte> {
    if pieces == [] then [] else pieces[0].data + Joined(pieces[1..])
  }

  /** The lengths are int values, as the fields of the events are. */
  predicate Sendable(m: Sent) { |m.topic| < 0x8000_0000 && |Joined(m.pieces)| < 0x8000_0000 }

  /** Non-empty pieces, or one empty piece for an empty payload. */
  ghost predicate WellFragmented(m: Sent) {
    && |m.pieces| > 0
    && (|m.pieces| > 1 ==> forall p :: p in m.pieces ==> p.data != [])
  }

  predicate Fits(m: Sent) { |m.topic| < TOPIC_SIZE && |Joined(m.pieces)| < PAYLOAD_SIZE }

  function Takes(n: nat): (t: seq<Input>)
    ensures |t| == n && forall i :: i in t ==> i == Take
    ensures AllAdmissible(t)
  {
    seq(n, _ => Take)
  }

  function FragmentEvent(topic: seq<byte>, total: nat, offset: nat, data: seq<byte>): (e: Event)
    requires |topic| < 0x8000_0000 && offset + |data| <= total < 0x8000_0000
    ensures e.Admissible()
  {
    if offset == 0 then Event(Some(topic), |topic|, Some(data), |data|, total, 0)
    else Event(None, 0, Some(data), |data|, total, offset)
  }

  function Fragments(topic: seq<byte>, total: nat, offset: nat, pieces: seq<Piece>): (r: seq<Input>)
    requires |topic| < 0x8000_0000 && offset + |Joined(pieces)| <= total < 0x8000_0000
    ensures AllAdmissible(r)
    decreases |pieces|
  {
    if pieces == [] then []
    else
      [Data(FragmentEvent(topic, total, offset, pieces[0].data))] + Takes(pieces[0].takes)
      + Fragments(topic, total, offset + |pieces[0].data|, pieces[1..])
  }

  function Delivery(messages: seq<Sent>): (r: seq<Input>)
    requires forall m :: m in messages ==> Sendable(m)
    ensures AllAdmissible(r)
  {
    if messages == [] then []
    else
      var m := messages[0];
      assert m in messages && Sendable(m);
      Fragments(m.topic, |Joined(m.pieces)|, 0, m.pieces) + Delivery(messages[1..])
  }

  // ----- the reference: a bounded queue of whole messages -----

  datatype Mailbox = Mailbox(queue: seq<Message>, taken: seq<Message>)

  function TakeOne(b: Mailbox): Mailbox {
    if b.queue == [] then b else Mailbox(b.queue[1..], b.taken + [b.queue[0]])
  }

  function TakeMany(b: Mailbox, n: nat): Mailbox
    decreases n
  {
    if n == 0 then b else TakeMany(TakeOne(b), n - 1)
  }

  /** A message that fits is put in the queue whole when its last piece arrives; others never are. */
  function Pieces(b: Mailbox, accepted: Option<Message>, pieces: seq<Piece>): Mailbox
    decreases |pieces|
  {
    if pieces == [] then b
    else
      var b1 := if |pieces| == 1 && accepted.Some? then b.(queue := Offer(b.queue, accepted.value)) else b;
      Pieces(TakeMany(b1, pieces[0].takes), accepted, pieces[1..])
  }

  function Padded(d: seq<byte>, n: nat): (r: seq<byte>)
    requires |d| <= n
    ensures |r| == n
  {
    d + ZeroBytes(n - |d|)
  }

  /** The message byte for byte, in zero-filled buffers. */
  function Whole(m: Sent): Option<Message> {
    if Fits(m) then Some(Message(Padded(m.topic, TOPIC_SIZE), Padded(Joined(m.pieces), PAYLOAD_SIZE))) else None
  }

  function Deliver(b: Mailbox, messages: seq<Sent>): Mailbox
    decreases |messages|
  {
    if messages == [] then b
    else Deliver(Pieces(b, Whole(messages[0]), messages[0].pieces), messages[1..])
  }

  function MailboxOf(s: System): Mailbox { Mailbox(s.state.queue, s.taken) }

  // ----- refinement -----

  lemma {:induction false} RunTakes(s: System, n: nat)
    requires s.state.asm.Valid()
    ensures var r := Run(s, Takes(n));
            MailboxOf(r) == TakeMany(MailboxOf(s), n) && r.state.asm == s.state.asm
    decreases n
  {
    if n > 0 {
      assert Takes(n)[1..] == Takes(n - 1);
      RunTakes(Next(s, Take), n - 1);
    }
  }

  lemma {:induction false} RunOneInput(s: System, i: Input)
    requires s.state.asm.Valid() && (i.Data? ==> i.event.Admissible())
    ensures AllAdmissible([i]) && Run(s, [i]) == Next(s, i)
  {
    hide Next;
    assert [i][1..] == [];
  }

  /** One event, the takes behind it, and the rest. */
  lemma RunPiece(s: System, topic: seq<byte>, total: nat, offset: nat, pieces: seq<Piece>)
    requires s.state.asm.Valid() && pieces != []
    requires |topic| < 0x8000_0000 && offset + |Joined(pieces)| <= total < 0x8000_0000
    ensures var p := pieces[0];
            var s1 := Next(s, Data(FragmentEvent(topic, total, offset, p.data)));
            var s2 := Run(s1, Takes(p.takes));
            && Run(s, Fragments(topic, total, offset, pieces))
               == Run(s2, Fragments(topic, total, offset + |p.data|, pieces[1..]))
            && MailboxOf(s2) == TakeMany(MailboxOf(s1), p.takes)
            && s2.state.asm == s1.state.asm
  {
    var p := pieces[0];
    var input := Data(FragmentEvent(topic, total, offset, p.data));
    var rest := Fragments(topic, total, offset + |p.data|, pieces[1..]);
    assert Fragments(topic, total, offset, pieces) == [input] + Takes(p.takes) + rest;
    hide Fragments, FragmentEvent, Takes, TakeMany, Next, Joined;
    RunOneInput(s, input);
    RunConcat(s, [input], Takes(p.takes));
    RunConcat(s, [input] + Takes(p.takes), rest);
    RunTakes(Next(s, input), p.takes);
  }

  /** The assembly after the bytes `done` of a message that fits. */
  function InProgress(topic: seq<byte>, total: nat, done: seq<byte>): Assembly
    requires |topic| < TOPIC_SIZE && |done| <= total < PAYLOAD_SIZE
  {
    Assembly(Padded(topic, TOPIC_SIZE), Padded(done, PAYLOAD_SIZE), total, |done|, true, false)
  }

  lemma StoreNext(s: State, topic: seq<byte>, total: nat, done: seq<byte>, e: Event, data: seq<byte>)
    requires |topic| < TOPIC_SIZE && |done| + |data| <= total < PAYLOAD_SIZE
    requires s.asm == InProgress(topic, total, done)
    requires e.Admissible() && e.offset == |done| && e.data == Some(data) && e.dataLen == |data|
    ensures Store(s, e) ==
            if |done| + |data| < total then s.(asm := InProgress(topic, total, done + data))
            else State(CLEARED, Offer(s.queue, Message(Padded(topic, TOPIC_SIZE), Padded(done + data, PAYLOAD_SIZE))))
  {
    assert Bytes(e.data, e.dataLen) == data;
    var payload := Overwrite(s.asm.payload, |done|, data);
    assert payload == Padded(done + data, PAYLOAD_SIZE);
    assert payload[total := 0] == payload || |done| + |data| < total;
  }

  /** A later fragment of a message that fits, received in its place. */
  lemma StepNext(s: State, topic: seq<byte>, total: nat, done: seq<byte>, data: seq<byte>)
    requires |topic| < TOPIC_SIZE && done != [] && |done| + |data| <= total < PAYLOAD_SIZE
    requires s.asm == InProgress(topic, total, done)
    ensures Step(s, FragmentEvent(topic, total, |done|, data)) ==
            if |done| + |data| < total then s.(asm := InProgress(topic, total, done + data))
            else State(CLEARED, Offer(s.queue, Message(Padded(topic, TOPIC_SIZE), Padded(done + data, PAYLOAD_SIZE))))
  {
    StoreNext(s, topic, total, done, FragmentEvent(topic, total, |done|, data), data);
    hide Store, Padded, CLEARED, Offer;
  }

  /** The remaining pieces of a message that fits, after at least one byte. */
  lemma {:induction false} DeliverRest(s: System, topic: seq<byte>, total: nat, done: seq<byte>, pieces: seq<Piece>)
    requires |topic| < TOPIC_SIZE && total < PAYLOAD_SIZE
    requires done != [] && |done| + |Joined(pieces)| == total
    requires pieces != [] && forall p :: p in pieces ==> p.data != []
    requires s.state.asm == InProgress(topic, total, done)
    ensures var m := Message(Padded(topic, TOPIC_SIZE), Padded(done + Joined(pieces), PAYLOAD_SIZE));
            MailboxOf(Run(s, Fragments(topic, total, |done|, pieces))) == Pieces(MailboxOf(s), Some(m), pieces)
    decreases |pieces|
  {
    hide Step, Padded, Takes, Joined, AllAdmissible, Run, TakeMany;
    var d := pieces[0].data;
    JoinedTail(pieces);
    var e := FragmentEvent(topic, total, |done|, d);
    RunPiece(s, topic, total, |done|, pieces);
    StepNext(s.state, topic, total, done, d);
    var s1 := Next(s, Data(e));
    assert s1 == s.(state := Step(s.state, e));
    var s2 := Run(s1, Takes(pieces[0].takes));
    assert done + Joined(pieces) == (done + d) + Joined(pieces[1..]);
    hide Next, InProgress, FragmentEvent;
    if |pieces| == 1 {
      assert done + Joined(pieces) == done + d;
      RunNothing(s2, Fragments(topic, total, |done + d|, pieces[1..]));
    } else {
      hide Fragments;
      DeliverRest(s2, topic, total, done + d, pieces[1..]);
    }
  }

  lemma {:induction false} RunNothing(s: System, inputs: seq<Input>)
    requires s.state.asm.Valid()
    ensures inputs == [] ==> AllAdmissible(inputs) && Run(s, inputs) == s
  {
  }

  lemma {:induction false} JoinedTail(pieces: seq<Piece>)
    requires pieces != [] && forall p :: p in pieces ==> p.data != []
    ensures Joined(pieces) == pieces[0].data + Joined(pieces[1..])
    ensures |pieces| == 1 ==> Joined(pieces[1..]) == []
    ensures |pieces| > 1 ==> Joined(pieces[1..]) != [] && forall p :: p in pieces[1..] ==> p.data != []
  {
    if |pieces| > 1 {
      assert pieces[1] in pieces;
      assert Joined(pieces[1..]) == pieces[1].data + Joined(pieces[1..][1..]);
    }
  }

  /** The remaining pieces of a message that does not fit change nothing but the assembly. */
  lemma {:induction false} DropRest(s: System, topic: seq<byte>, total: nat, offset: nat, pieces: seq<Piece>)
    requires s.state.asm.Valid() && offset > 0
    requires |topic| < 0x8000_0000 && offset + |Joined(pieces)| <= total < 0x8000_0000
    requires s.state.asm.dropping || !s.state.asm.active
    ensures MailboxOf(Run(s, Fragments(topic, total, offset, pieces))) == Pieces(MailboxOf(s), None, pieces)
    decreases |pieces|
  {
    if pieces != [] {
      RunPiece(s, topic, total, offset, pieces);
      var s1 := Next(s, Data(FragmentEvent(topic, total, offset, pieces[0].data)));
      DropRest(Run(s1, Takes(pieces[0].takes)), topic, total, offset + |pieces[0].data|, pieces[1..]);
    }
  }

  /** The last fragment of a message that does not fit, if it is not the only one, ends the dropping. */
  lemma {:induction false} DroppingEnds(s: System, topic: seq<byte>, total: nat, offset: nat, pieces: seq<Piece>)
    requires |topic| < 0x8000_0000 && offset + |Joined(pieces)| == total < 0x8000_0000 && offset > 0
    requires pieces != [] && forall p :: p in pieces ==> p.data != []
    requires s.state.asm == CLEARED.(dropping := true, totalLen := total)
    ensures Run(s, Fragments(topic, total, offset, pieces)).state.asm == CLEARED
    decreases |pieces|
  {
    hide Run, Takes, TakeMany, Fragments;
    JoinedTail(pieces);
    RunPiece(s, topic, total, offset, pieces);
    var s1 := Next(s, Data(FragmentEvent(topic, total, offset, pieces[0].data)));
    var s2 := Run(s1, Takes(pieces[0].takes));
    if |pieces| == 1 {
      NoFragments(topic, total, total, pieces[1..]);
      RunNothing(s2, Fragments(topic, total, total, pieces[1..]));
    } else {
      DroppingEnds(s2, topic, total, offset + |pieces[0].data|, pieces[1..]);
    }
  }

  /** The first piece of a message that fits, from whatever the assembly was left in. */
  lemma StepFirst(s: State, topic: seq<byte>, total: nat, data: seq<byte>)
    requires s.asm.Valid() && |topic| < TOPIC_SIZE && |data| <= total < PAYLOAD_SIZE
    ensures Step(s, FragmentEvent(topic, total, 0, data)) ==
            if |data| < total then s.(asm := InProgress(topic, total, data))
            else State(CLEARED, Offer(s.queue, Message(Padded(topic, TOPIC_SIZE), Padded(data, PAYLOAD_SIZE))))
  {
    var e := FragmentEvent(topic, total, 0, data);
    OpenedIsInProgress(topic, total, data);
    hide Padded, Overwrite, InProgress, Store;
    StoreNext(s.(asm := Opened(e)), topic, total, [], e, data);
    assert [] + data == data;
  }

  lemma OpenedIsInProgress(topic: seq<byte>, total: nat, data: seq<byte>)
    requires |topic| < TOPIC_SIZE && |data| <= total < PAYLOAD_SIZE
    ensures Opened(FragmentEvent(topic, total, 0, data)) == InProgress(topic, total, [])
  {
    var e := FragmentEvent(topic, total, 0, data);
    assert Bytes(e.topic, e.topicLen) == topic;
    assert Opened(e).topic == Padded(topic, TOPIC_SIZE);
    assert ZeroBytes(PAYLOAD_SIZE) == Padded([], PAYLOAD_SIZE);
  }

  /** The first piece of a message that does not fit. */
  lemma StepOversized(s: State, topic: seq<byte>, total: nat, data: seq<byte>)
    requires s.asm.Valid() && |topic| < 0x8000_0000 && |data| <= total < 0x8000_0000
    requires |topic| >= TOPIC_SIZE || total >= PAYLOAD_SIZE
    ensures var r := Step(s, FragmentEvent(topic, total, 0, data));
            r == s.(asm := CLEARED.(dropping := true, totalLen := total))
  {
  }

  lemma {:induction false} DeliverOnlyPiece(s: System, m: Sent)
    requires s.state.asm.Valid() && Sendable(m) && WellFragmented(m) && Fits(m) && |m.pieces| == 1
    ensures MailboxOf(Run(s, Fragments(m.topic, |Joined(m.pieces)|, 0, m.pieces)))
            == Pieces(MailboxOf(s), Whole(m), m.pieces)
  {
    var d := m.pieces[0].data;
    hide Step, Padded, InProgress, FragmentEvent, Takes, Run, TakeMany, Joined;
    OnlyPiece(m.pieces);
    StepFirst(s.state, m.topic, |d|, d);
    RunPiece(s, m.topic, |d|, 0, m.pieces);
    var s2 := Run(Next(s, Data(FragmentEvent(m.topic, |d|, 0, d))), Takes(m.pieces[0].takes));
    RunNothing(s2, Fragments(m.topic, |d|, |d|, m.pieces[1..]));
  }

  lemma {:induction false} OnlyPiece(pieces: seq<Piece>)
    requires |pieces| == 1
    ensures Joined(pieces) == pieces[0].data && Joined(pieces[1..]) == []
  {
    assert pieces[0].data + [] == pieces[0].data;
  }

  lemma {:induction false} DeliverManyPieces(s: System, m: Sent)
    requires s.state.asm.Valid() && Sendable(m) && WellFragmented(m) && Fits(m) && |m.pieces| > 1
    ensures MailboxOf(Run(s, Fragments(m.topic, |Joined(m.pieces)|, 0, m.pieces)))
            == Pieces(MailboxOf(s), Whole(m), m.pieces)
  {
    hide Step, Padded, InProgress, FragmentEvent, Takes, Run, TakeMany, Joined, Fragments;
    var d, total := m.pieces[0].data, |Joined(m.pieces)|;
    assert m.pieces[0] in m.pieces;
    JoinedTail(m.pieces);
    StepFirst(s.state, m.topic, total, d);
    RunPiece(s, m.topic, total, 0, m.pieces);
    var s1 := Next(s, Data(FragmentEvent(m.topic, total, 0, d)));
    var s2 := Run(s1, Takes(m.pieces[0].takes));
    DeliverRest(s2, m.topic, total, d, m.pieces[1..]);
  }

  lemma {:induction false} DropOne(s: System, m: Sent)
    requires s.state.asm.Valid() && Sendable(m) && WellFragmented(m) && !Fits(m)
    ensures MailboxOf(Run(s, Fragments(m.topic, |Joined(m.pieces)|, 0, m.pieces)))
            == Pieces(MailboxOf(s), Whole(m), m.pieces)
  {
    var d, total := m.pieces[0].data, |Joined(m.pieces)|;
    assert m.pieces[0] in m.pieces;
    assert Joined(m.pieces) == d + Joined(m.pieces[1..]);
    hide Step, FragmentEvent, Takes, Run, TakeMany, Joined, Fragments;
    StepOversized(s.state, m.topic, total, d);
    RunPiece(s, m.topic, total, 0, m.pieces);
    var s1 := Next(s, Data(FragmentEvent(m.topic, total, 0, d)));
    var s2 := Run(s1, Takes(m.pieces[0].takes));
    if |m.pieces| > 1 {
      DropRest(s2, m.topic, total, |d|, m.pieces[1..]);
    } else {
      NoFragments(m.topic, total, |d|, m.pieces[1..]);
      RunNothing(s2, Fragments(m.topic, total, |d|, m.pieces[1..]));
    }
  }

  lemma {:induction false} NoFragments(topic: seq<byte>, total: nat, offset: nat, pieces: seq<Piece>)
    requires |topic| < 0x8000_0000 && offset + |Joined(pieces)| <= total < 0x8000_0000
    ensures pieces == [] ==> Fragments(topic, total, offset, pieces) == []
  {
  }

  /** One message, from whatever the assembly was left in. */
  lemma {:induction false} DeliverOne(s: System, m: Sent)
    requires s.state.asm.Valid() && Sendable(m) && WellFragmented(m)
    ensures MailboxOf(Run(s, Fragments(m.topic, |Joined(m.pieces)|, 0, m.pieces)))
            == Pieces(MailboxOf(s), Whole(m), m.pieces)
  {
    hide Run, Fragments, Whole, Pieces, Fits;
    if !Fits(m) {
      DropOne(s, m);
    } else if |m.pieces| == 1 {
      DeliverOnlyPiece(s, m);
    } else {
      DeliverManyPieces(s, m);
    }
  }

  /**
   * For every sequence of messages, every fragmentation and every timing of the consumer, the queue and
   * the consumer see exactly the messages that fit, whole and in order, less those a full queue drops.
   */
  lemma {:induction false} QueueReceivesExactlyFittingMessages(s: System, messages: seq<Sent>)
    requires s.state.asm.Valid() && forall m :: m in messages ==> Sendable(m) && WellFragmented(m)
    ensures MailboxOf(Run(s, Delivery(messages))) == Deliver(MailboxOf(s), messages)
    decreases |messages|
  {
    if messages != [] {
      var m := messages[0];
      assert m in messages && Sendable(m);
      var inputs := Fragments(m.topic, |Joined(m.pieces)|, 0, m.pieces);
      RunConcat(s, inputs, Delivery(messages[1..]));
      DeliverOne(s, m);
      QueueReceivesExactlyFittingMessages(Run(s, inputs), messages[1..]);
    }
  }

  function IfFitting(m: Sent): seq<Message> { if Fits(m) then [Whole(m).value] else [] }

  function Fitting(messages: seq<Sent>): seq<Message> {
    if messages == [] then [] else IfFitting(messages[0]) + Fitting(messages[1..])
  }

  lemma {:induction false} PiecesWithPromptConsumer(b: Mailbox, accepted: Option<Message>, pieces: seq<Piece>)
    requires b.queue == [] && pieces != []
    requires pieces[|pieces| - 1].takes > 0
    ensures Pieces(b, accepted, pieces)
            == Mailbox([], b.taken + if accepted.Some? then [accepted.value] else [])
    decreases |pieces|
  {
    TakesOfShortQueue(b, pieces[0].takes);
    assert b.taken + [] == b.taken && b == Mailbox([], b.taken);
    if |pieces| > 1 {
      assert pieces[1..][|pieces| - 2] == pieces[|pieces| - 1];
      PiecesWithPromptConsumer(b, accepted, pieces[1..]);
    } else if accepted.Some? {
      assert Offer(b.queue, accepted.value) == [accepted.value];
      TakesOfShortQueue(b.(queue := [accepted.value]), pieces[0].takes);
    }
  }

  lemma {:induction false} TakesOfShortQueue(b: Mailbox, n: nat)
    requires |b.queue| <= 1
    ensures TakeMany(b, n) == if n == 0 then b else Mailbox([], b.taken + b.queue)
    decreases n
  {
    if n > 0 {
      assert TakeOne(b) == Mailbox([], b.taken + b.queue);
      TakesOfShortQueue(TakeOne(b), n - 1);
    }
  }

  lemma {:induction false} DeliverToPromptConsumer(b: Mailbox, messages: seq<Sent>)
    requires b.queue == []
    requires forall m :: m in messages ==> Sendable(m) && WellFragmented(m) && m.pieces[|m.pieces| - 1].takes > 0
    ensures Deliver(b, messages) == Mailbox([], b.taken + Fitting(messages))
    decreases |messages|
  {
    if messages == [] {
      assert b.taken + [] == b.taken;
    } else {
      var m, rest := messages[0], messages[1..];
      assert m in messages;
      PiecesWithPromptConsumer(b, Whole(m), m.pieces);
      var b1 := Mailbox([], b.taken + IfFitting(m));
      assert Pieces(b, Whole(m), m.pieces) == b1;
      hide Pieces, Whole, IfFitting;
      DeliverToPromptConsumer(b1, rest);
      assert (b.taken + IfFitting(m)) + Fitting(rest) == b.taken + (IfFitting(m) + Fitting(rest));
    }
  }

  /** A consumer that takes after each message receives exactly the messages that fit, in order. */
  lemma {:induction false} PromptConsumerReceivesAllFitting(s: System, messages: seq<Sent>)
    requires s.state.asm.Valid() && s.state.queue == []
    requires forall m :: m in messages ==> Sendable(m) && WellFragmented(m) && m.pieces[|m.pieces| - 1].takes > 0
    ensures MailboxOf(Run(s, Delivery(messages))) == Mailbox([], s.taken + Fitting(messages))
  {
    QueueReceivesExactlyFittingMessages(s, messages);
    DeliverToPromptConsumer(MailboxOf(s), messages);
    hide Run, Delivery, Deliver, Fitting;
  }

  /** After a message that does not fit the assembly is clear, unless it came in one piece: then it is dropping. */
  lemma {:induction false} OversizedEnds(s: System, m: Sent)
    requires s.state.asm.Valid() && Sendable(m) && WellFragmented(m) && !Fits(m)
    ensures Run(s, Fragments(m.topic, |Joined(m.pieces)|, 0, m.pieces)).state.asm
            == if |m.pieces| > 1 then CLEARED else CLEARED.(dropping := true, totalLen := |Joined(m.pieces)|)
  {
    var d, total := m.pieces[0].data, |Joined(m.pieces)|;
    assert m.pieces[0] in m.pieces;
    assert Joined(m.pieces) == d + Joined(m.pieces[1..]);
    hide Step, FragmentEvent, Takes, Run, TakeMany, Joined, Fragments, CLEARED;
    StepOversized(s.state, m.topic, total, d);
    RunPiece(s, m.topic, total, 0, m.pieces);
    var s1 := Next(s, Data(FragmentEvent(m.topic, total, 0, d)));
    var s2 := Run(s1, Takes(m.pieces[0].takes));
    if |m.pieces| > 1 {
      DroppingEnds(s2, m.topic, total, |d|, m.pieces[1..]);
    } else {
      NoFragments(m.topic, total, |d|, m.pieces[1..]);
      RunNothing(s2, Fragments(m.topic, total, |d|, m.pieces[1..]));
    }
  }

  // ----- order, and what a full queue drops -----

  /** All but the last piece of a message. */
  function Front(m: Sent): (f: Sent)
    requires m.pieces != []
  {
    Sent(m.topic, m.pieces[..|m.pieces| - 1])
  }

  lemma {:induction false} JoinedFront(pieces: seq<Piece>)
    requires pieces != []
    ensures Joined(pieces) == Joined(pieces[..|pieces| - 1]) + pieces[|pieces| - 1].data
    decreases |pieces|
  {
    if |pieces| == 1 {
      assert pieces[0].data + [] == [] + pieces[0].data;
    } else {
      var rest := pieces[1..];
      JoinedFront(rest);
      assert rest[..|rest| - 1] == pieces[..|pieces| - 1][1..];
      assert pieces[0].data + (Joined(rest[..|rest| - 1]) + rest[|rest| - 1].data)
             == (pieces[0].data + Joined(rest[..|rest| - 1])) + rest[|rest| - 1].data;
    }
  }

  /** The inputs up to the arrival of the last piece of message i: the messages before it, and its other pieces. */
  function UntilLastPiece(messages: seq<Sent>, i: nat): (r: seq<Input>)
    requires i < |messages| && forall m :: m in messages ==> Sendable(m) && WellFragmented(m)
    ensures AllAdmissible(r)
  {
    var m := messages[i];
    assert m in messages && Sendable(m) && WellFragmented(m);
    JoinedFront(m.pieces);
    Delivery(messages[..i]) + Fragments(m.topic, |Joined(m.pieces)|, 0, Front(m).pieces)
  }

  lemma {:induction false} DeliveryAppend(messages: seq<Sent>, m: Sent)
    requires Sendable(m) && forall x :: x in messages ==> Sendable(x)
    ensures Delivery(messages + [m]) == Delivery(messages) + Fragments(m.topic, |Joined(m.pieces)|, 0, m.pieces)
    decreases |messages|
  {
    hide Fragments;
    if messages == [] {
      assert messages + [m] == [m] && [m][1..] == [];
    } else {
      assert messages[0] in messages;
      assert (messages + [m])[1..] == messages[1..] + [m];
      DeliveryAppend(messages[1..], m);
    }
  }

  /** The pieces of a message that fits, after at least one byte and short of the end, change only the assembly. */
  lemma {:induction false} DeliverShort(s: System, topic: seq<byte>, total: nat, done: seq<byte>, pieces: seq<Piece>)
    requires |topic| < TOPIC_SIZE && done != [] && |done| + |Joined(pieces)| < total < PAYLOAD_SIZE
    requires forall p :: p in pieces ==> p.data != []
    requires s.state.asm == InProgress(topic, total, done)
    ensures MailboxOf(Run(s, Fragments(topic, total, |done|, pieces))) == Pieces(MailboxOf(s), None, pieces)
    decreases |pieces|
  {
    if pieces == [] {
      RunNothing(s, Fragments(topic, total, |done|, pieces));
    } else {
      hide Step, Padded, Takes, AllAdmissible, Run, TakeMany;
      var d := pieces[0].data;
      assert Joined(pieces) == d + Joined(pieces[1..]);
      RunPiece(s, topic, total, |done|, pieces);
      StepNext(s.state, topic, total, done, d);
      var s1 := Next(s, Data(FragmentEvent(topic, total, |done|, d)));
      var s2 := Run(s1, Takes(pieces[0].takes));
      hide Joined, Fragments, InProgress, FragmentEvent;
      DeliverShort(s2, topic, total, done + d, pieces[1..]);
    }
  }

  /** Until its last piece arrives a message changes only the assembly, whether it fits or not. */
  lemma {:induction false} DeliverFront(s: System, m: Sent)
    requires s.state.asm.Valid() && Sendable(m) && WellFragmented(m)
    ensures |Joined(Front(m).pieces)| <= |Joined(m.pieces)|
    ensures MailboxOf(Run(s, Fragments(m.topic, |Joined(m.pieces)|, 0, Front(m).pieces)))
            == Pieces(MailboxOf(s), None, Front(m).pieces)
  {
    var total, front := |Joined(m.pieces)|, Front(m).pieces;
    JoinedFront(m.pieces);
    if front == [] {
      NoFragments(m.topic, total, 0, front);
      RunNothing(s, Fragments(m.topic, total, 0, front));
    } else {
      assert forall p :: p in front ==> p in m.pieces;
      assert m.pieces[|m.pieces| - 1] in m.pieces;
      var d := front[0].data;
      assert Joined(front) == d + Joined(front[1..]);
      hide Step, Padded, InProgress, FragmentEvent, Takes, Run, TakeMany, Joined, Fragments;
      RunPiece(s, m.topic, total, 0, front);
      var s1 := Next(s, Data(FragmentEvent(m.topic, total, 0, d)));
      var s2 := Run(s1, Takes(front[0].takes));
      if Fits(m) {
        StepFirst(s.state, m.topic, total, d);
        DeliverShort(s2, m.topic, total, d, front[1..]);
      } else {
        StepOversized(s.state, m.topic, total, d);
        DropRest(s2, m.topic, total, |d|, front[1..]);
      }
    }
  }

  /** All that has come through the mailbox, in order. */
  function Content(b: Mailbox): seq<Message> { b.taken + b.queue }

  lemma {:induction false} TakesKeepContent(b: Mailbox, n: nat)
    ensures Content(TakeMany(b, n)) == Content(b)
    decreases n
  {
    if n > 0 {
      TakesKeepContent(TakeOne(b), n - 1);
      if b.queue != [] {
        assert (b.taken + [b.queue[0]]) + b.queue[1..] == b.taken + b.queue;
      }
    }
  }

  /** A message comes in behind all others, unless five are waiting when its last piece arrives. */
  lemma {:induction false} PiecesContent(b: Mailbox, accepted: Option<Message>, pieces: seq<Piece>)
    requires pieces != []
    ensures var room := |Pieces(b, None, pieces[..|pieces| - 1]).queue| < QUEUE_LENGTH;
            Content(Pieces(b, accepted, pieces))
            == if accepted.Some? && room then Content(b) + [accepted.value] else Content(b)
    decreases |pieces|
  {
    hide TakeMany;
    if |pieces| == 1 {
      var b1 := if accepted.Some? then b.(queue := Offer(b.queue, accepted.value)) else b;
      TakesKeepContent(b1, pieces[0].takes);
      if accepted.Some? && |b.queue| < QUEUE_LENGTH {
        assert b.taken + (b.queue + [accepted.value]) == (b.taken + b.queue) + [accepted.value];
      }
    } else {
      TakesKeepContent(b, pieces[0].takes);
      var rest := pieces[1..];
      assert pieces[..|pieces| - 1][1..] == rest[..|rest| - 1];
      PiecesContent(TakeMany(b, pieces[0].takes), accepted, rest);
    }
  }

  /** A buffer holds the text, and zeros behind it. */
  ghost predicate Holds(buffer: seq<byte>, size: nat, text: seq<byte>) {
    |buffer| == size && text < buffer && forall k :: |text| <= k < size ==> buffer[k] == 0
  }

  ghost predicate Carries(w: Message, m: Sent) {
    Holds(w.topic, TOPIC_SIZE, m.topic) && Holds(w.payload, PAYLOAD_SIZE, Joined(m.pieces))
  }

  /** The delivered messages carry those sent at the given indices, one for each, in the order of sending. */
  ghost predicate InOrder(messages: seq<Sent>, kept: seq<nat>, delivered: seq<Message>) {
    && |kept| == |delivered|
    && (forall k, l :: 0 <= k < l < |kept| ==> kept[k] < kept[l])
    && forall k :: 0 <= k < |kept| ==> kept[k] < |messages| && Carries(delivered[k], messages[kept[k]])
  }

  /** A message that fits, and fewer than five messages waiting when its last piece arrives. */
  ghost predicate FindsRoom(s: System, messages: seq<Sent>, i: nat)
    requires s.state.asm.Valid() && i < |messages|
    requires forall m :: m in messages ==> Sendable(m) && WellFragmented(m)
  {
    Fits(messages[i]) && |Run(s, UntilLastPiece(messages, i)).state.queue| < 5
  }

  lemma WholeCarries(m: Sent)
    ensures Fits(m) ==> Whole(m).Some? && Carries(Whole(m).value, m)
  {
    hide Joined;
  }

  lemma OneMoreInOrder(front: seq<Sent>, m: Sent, kept: seq<nat>, delivered: seq<Message>, w: Message)
    requires InOrder(front, kept, delivered) && Carries(w, m)
    ensures InOrder(front + [m], kept + [|front|], delivered + [w])
  {
    hide Carries;
    var messages, all := front + [m], kept + [|front|];
    forall k | 0 <= k < |all| ensures all[k] < |messages| && Carries((delivered + [w])[k], messages[all[k]]) {
      if k < |kept| {
        assert messages[kept[k]] == front[kept[k]];
      }
    }
  }

  lemma SameInOrder(front: seq<Sent>, m: Sent, kept: seq<nat>, delivered: seq<Message>)
    requires InOrder(front, kept, delivered)
    ensures InOrder(front + [m], kept, delivered) && |front| !in kept
  {
    hide Carries;
  }

  lemma RoomFits(s: System, messages: seq<Sent>, i: nat)
    requires s.state.asm.Valid() && i < |messages|
    requires forall m :: m in messages ==> Sendable(m) && WellFragmented(m)
    ensures FindsRoom(s, messages, i) ==> Fits(messages[i])
  {
  }

  /** Whether a message finds room does not depend on those behind it. */
  lemma {:induction false} EarlierLastPiece(s: System, front: seq<Sent>, m: Sent, i: nat)
    requires s.state.asm.Valid() && i < |front|
    requires forall x :: x in front + [m] ==> Sendable(x) && WellFragmented(x)
    ensures forall x :: x in front ==> Sendable(x) && WellFragmented(x)
    ensures FindsRoom(s, front + [m], i) == FindsRoom(s, front, i)
  {
    assert (front + [m])[..i] == front[..i] && (front + [m])[i] == front[i];
    forall x | x in front ensures Sendable(x) && WellFragmented(x) {
      assert x in front + [m];
    }
  }

  /** One more message behind the others. */
  lemma {:induction false} DeliverLast(s: System, front: seq<Sent>, m: Sent)
    requires s.state.asm.Valid() && forall x :: x in front + [m] ==> Sendable(x) && WellFragmented(x)
    ensures forall x :: x in front ==> Sendable(x) && WellFragmented(x)
    ensures var before, after := MailboxOf(Run(s, Delivery(front))), MailboxOf(Run(s, Delivery(front + [m])));
            Content(after) == if FindsRoom(s, front + [m], |front|) then Content(before) + [Whole(m).value]
                              else Content(before)
  {
    assert m in front + [m] && (front + [m])[..|front|] == front && (front + [m])[|front|] == m;
    forall x | x in front ensures Sendable(x) && WellFragmented(x) {
      assert x in front + [m];
    }
    hide Run, Delivery, Fragments, Pieces, Joined, Fits, Sendable, Content;
    var s1 := Run(s, Delivery(front));
    DeliveryAppend(front, m);
    RunConcat(s, Delivery(front), Fragments(m.topic, |Joined(m.pieces)|, 0, m.pieces));
    DeliverOne(s1, m);
    DeliverFront(s1, m);
    RunConcat(s, Delivery(front), Fragments(m.topic, |Joined(m.pieces)|, 0, Front(m).pieces));
    PiecesContent(MailboxOf(s1), Whole(m), m.pieces);
  }

  /** One more message, behind what has been received of those before it. */
  lemma {:induction false} ReceiveLast(s: System, front: seq<Sent>, m: Sent, kept: seq<nat>, delivered: seq<Message>)
    returns (kept': seq<nat>, delivered': seq<Message>)
    requires s.state.asm.Valid() && forall x :: x in front + [m] ==> Sendable(x) && WellFragmented(x)
    requires forall x :: x in front ==> Sendable(x) && WellFragmented(x)
    requires InOrder(front, kept, delivered)
    requires Content(MailboxOf(Run(s, Delivery(front)))) == Content(MailboxOf(s)) + delivered
    requires forall i: nat :: i < |front| ==> (i in kept <==> FindsRoom(s, front, i))
    ensures InOrder(front + [m], kept', delivered')
    ensures Content(MailboxOf(Run(s, Delivery(front + [m])))) == Content(MailboxOf(s)) + delivered'
    ensures forall i: nat :: i <= |front| ==> (i in kept' <==> FindsRoom(s, front + [m], i))
  {
    hide Run, Delivery, Whole, Carries, Fits, InOrder, FindsRoom, Content, Sendable, WellFragmented;
    DeliverLast(s, front, m);
    SameInOrder(front, m, kept, delivered);
    RoomFits(s, front + [m], |front|);
    WholeCarries(m);
    kept', delivered' := kept, delivered;
    if FindsRoom(s, front + [m], |front|) {
      OneMoreInOrder(front, m, kept, delivered, Whole(m).value);
      kept', delivered' := kept + [|front|], delivered + [Whole(m).value];
      assert Content(MailboxOf(s)) + (delivered + [Whole(m).value])
             == (Content(MailboxOf(s)) + delivered) + [Whole(m).value];
    }
    forall i: nat | i <= |front| ensures i in kept' <==> FindsRoom(s, front + [m], i) {
      if i < |front| {
        EarlierLastPiece(s, front, m, i);
      }
    }
  }

  /**
   * For every sequence of messages, every fragmentation and every timing of the consumer: what the consumer has
   * received and what is waiting for it are, in this order, behind what there was at the start, the messages that
   * found room, in the order of sending; and those are all that fit but the ones for which five were waiting.
   */
  lemma {:induction false} ReceivedInOrder(s: System, messages: seq<Sent>)
    returns (kept: seq<nat>, delivered: seq<Message>)
    requires s.state.asm.Valid() && forall m :: m in messages ==> Sendable(m) && WellFragmented(m)
    ensures var r := Run(s, Delivery(messages));
            r.taken + r.state.queue == s.taken + s.state.queue + delivered
    ensures InOrder(messages, kept, delivered)
    ensures forall i: nat :: i < |messages| ==> (i in kept <==> FindsRoom(s, messages, i))
    decreases |messages|
  {
    hide Run, InOrder, FindsRoom, Sendable, WellFragmented, Delivery;
    NothingDelivered(s);
    kept, delivered := [], [];
    if messages != [] {
      var front, m := messages[..|messages| - 1], messages[|messages| - 1];
      assert messages == front + [m];
      kept, delivered := ReceivedInOrder(s, front);
      kept, delivered := ReceiveLast(s, front, m, kept, delivered);
    }
  }

  lemma {:induction false} NothingDelivered(s: System)
    requires s.state.asm.Valid()
    ensures Delivery([]) == [] && Run(s, Delivery([])) == s && InOrder([], [], [])
  {
  }

  lemma {:induction false} FittingAppend(messages: seq<Sent>, m: Sent)
    ensures Fitting(messages + [m]) == Fitting(messages) + IfFitting(m)
    decreases |messages|
  {
    if messages == [] {
      assert messages + [m] == [m] && [m][1..] == [];
    } else {
      assert (messages + [m])[1..] == messages[1..] + [m];
      FittingAppend(messages[1..], m);
    }
  }

  /** As long as no message finds five others waiting, none that fits is lost, and all come through in order. */
  lemma {:induction false} NothingLostWithRoom(s: System, messages: seq<Sent>)
    requires s.state.asm.Valid() && forall m :: m in messages ==> Sendable(m) && WellFragmented(m)
    requires forall i: nat :: i < |messages| && Fits(messages[i]) ==> FindsRoom(s, messages, i)
    ensures var r := Run(s, Delivery(messages));
            r.taken + r.state.queue == s.taken + s.state.queue + Fitting(messages)
    decreases |messages|
  {
    hide Run, UntilLastPiece, Fits;
    if messages == [] {
      NothingDelivered(s);
    } else {
      var front, m := messages[..|messages| - 1], messages[|messages| - 1];
      assert messages == front + [m];
      DeliverLast(s, front, m);
      FittingAppend(front, m);
      hide Delivery, Whole, Fitting;
      forall i: nat | i < |front| && Fits(front[i]) ensures FindsRoom(s, front, i) {
        assert messages[i] == front[i];
        EarlierLastPiece(s, front, m, i);
      }
      NothingLostWithRoom(s, front);
      assert Fits(m) <==> FindsRoom(s, messages, |front|);
    }
  }
}
