/** Reassembly of fragmented MQTT commands in one static buffer, feeding a bounded queue. */
module MqttAssembly {
  import opened FixedWidth
  import opened Wrappers

  const TOPIC_SIZE: nat := 128
  const PAYLOAD_SIZE: nat := 384
  const QUEUE_LENGTH: nat := 5

  /** What travels through the queue: the two buffers whole, zero-filled behind their strings. */
  datatype Message = Message(topic: seq<byte>, payload: seq<byte>)

  /** A data event of the client library; None is a null pointer. */
  datatype Event = Event(topic: Option<seq<byte>>, topicLen: CInt,
                         data: Option<seq<byte>>, dataLen: CInt, totalLen: CInt, offset: CInt)
  {
    /** The pointers are readable for the lengths that come with them. */
    ghost predicate Readable() {
      && 0 <= topicLen
      && (topic.Some? ==> topicLen <= |topic.value|)
      && (data.Some? ==> dataLen <= |data.value|)
    }

    /** The end of the fragment is an int. */
    predicate SumFits() { offset + dataLen < 0x8000_0000 }

    ghost predicate Admissible() { Readable() && SumFits() }
  }

  /** command_assembly. */
  datatype Assembly = Assembly(topic: seq<byte>, payload: seq<byte>, totalLen: CInt, receivedLen: CInt,
                               active: bool, dropping: bool)
  {
    ghost predicate Valid() { |topic| == TOPIC_SIZE && |payload| == PAYLOAD_SIZE }
  }

  function ZeroBytes(n: nat): (z: seq<byte>)
    ensures |z| == n
    ensures forall i :: 0 <= i < n ==> z[i] == 0
  {
    seq(n, _ => 0)
  }

  const CLEARED := Assembly(ZeroBytes(TOPIC_SIZE), ZeroBytes(PAYLOAD_SIZE), 0, 0, false, false)

  /** memcpy of d into b at index i. */
  function Overwrite(b: seq<byte>, i: nat, d: seq<byte>): (r: seq<byte>)
    requires i + |d| <= |b|
    ensures |r| == |b|
    ensures forall k :: 0 <= k < |b| ==> r[k] == if i <= k < i + |d| then d[k - i] else b[k]
  {
    b[..i] + d + b[i + |d|..]
  }

  /** xQueueSend without waiting: a full queue drops the message. */
  function Offer(queue: seq<Message>, m: Message): seq<Message> {
    if |queue| < QUEUE_LENGTH then queue + [m] else queue
  }

  datatype State = State(asm: Assembly, queue: seq<Message>)

  /** The checks behind which a fragment is copied into the payload buffer. */
  predicate Storable(totalLen: CInt, e: Event) {
    && !(e.dataLen > 0 && e.data.None?)
    && e.offset >= 0 && e.dataLen >= 0
    && AddInt(e.offset, e.dataLen) <= totalLen
    && AddInt(e.offset, e.dataLen) < PAYLOAD_SIZE
  }

  /** A fragment that passes the checks is copied inside the buffer if and only if its end is an int. */
  lemma CopyInBoundsIffSumFits(totalLen: CInt, e: Event)
    requires Storable(totalLen, e)
    ensures 0 <= e.offset && (e.offset + e.dataLen <= PAYLOAD_SIZE <==> e.SumFits())
  {
    var end := AddInt(e.offset, e.dataLen);
    assert end < PAYLOAD_SIZE;
    assert e.SumFits() ==> end == e.offset + e.dataLen;
  }

  /** Whatever length was declared, a fragment of one byte behind the largest offset passes the checks. */
  lemma OverflowPassesChecks(totalLen: CInt) returns (e: Event)
    ensures e.Readable() && e.offset == 0x7FFF_FFFF && e.dataLen == 1
    ensures Storable(totalLen, e) && e.offset + e.dataLen > PAYLOAD_SIZE
  {
    e := Event(None, 0, Some([0]), 1, totalLen, 0x7FFF_FFFF);
    assert AddInt(0x7FFF_FFFF, 1) == -0x8000_0000;
  }

  function Bytes(p: Option<seq<byte>>, n: int): (d: seq<byte>)
    requires 0 <= n && (p.Some? ==> n <= |p.value|)
    ensures p.Some? ==> |d| == n
  {
    if p.None? then [] else p.value[..n]
  }

  predicate MissingBuffers(e: Event) {
    (e.topicLen > 0 && e.topic.None?) || (e.dataLen > 0 && e.data.None?)
  }

  predicate Oversized(e: Event) { e.topicLen >= TOPIC_SIZE || e.totalLen >= PAYLOAD_SIZE }

  /** The assembly as an offset-0 event with acceptable lengths opens it. */
  function Opened(e: Event): Assembly
    requires e.Readable() && !MissingBuffers(e) && !Oversized(e)
  {
    CLEARED.(topic := Overwrite(ZeroBytes(TOPIC_SIZE), 0, Bytes(e.topic, e.topicLen)),
             totalLen := e.totalLen, active := true)
  }

  /** The second half of the handler: check, copy, and complete the message with its last byte. */
  function Store(s: State, e: Event): State
    requires e.Readable() && s.asm.Valid() && (Storable(s.asm.totalLen, e) ==> e.SumFits())
  {
    if !Storable(s.asm.totalLen, e) then s.(asm := CLEARED)
    else
      var payload := Overwrite(s.asm.payload, e.offset, Bytes(e.data, e.dataLen));
      var received := AddInt(s.asm.receivedLen, e.dataLen);
      if AddInt(e.offset, e.dataLen) != s.asm.totalLen then
        s.(asm := s.asm.(payload := payload, receivedLen := received))
      else if received != s.asm.totalLen then s.(asm := CLEARED)
      else
        State(CLEARED, Offer(s.queue, Message(s.asm.topic, payload[s.asm.totalLen := 0])))
  }

  /** Whether the event gets past every check, so that its fragment is copied. */
  predicate Copies(a: Assembly, e: Event) {
    if e.offset == 0 then !MissingBuffers(e) && !Oversized(e) && Storable(e.totalLen, e)
    else !a.dropping && a.active && Storable(a.totalLen, e)
  }

  /** The copy leaves the buffer; what such an event does is not modelled. */
  predicate Overruns(a: Assembly, e: Event) { Copies(a, e) && !e.SumFits() }

  /** handle_mqtt_data as a function of the assembly and the queue, except for events that overrun. */
  function Step(s: State, e: Event): (r: State)
    requires e.Readable() && s.asm.Valid()
    ensures r.asm.Valid()
  {
    if Overruns(s.asm, e) then s
    else if e.offset == 0 then
      if MissingBuffers(e) then s.(asm := CLEARED)
      else if Oversized(e) then s.(asm := CLEARED.(dropping := true, totalLen := e.totalLen))
      else Store(s.(asm := Opened(e)), e)
    else if s.asm.dropping then
      if AddInt(e.offset, e.dataLen) >= s.asm.totalLen then s.(asm := CLEARED) else s
    else if !s.asm.active then s
    else Store(s, e)
  }

  /** The byte behind a string copied into a cleared buffer is zero already. */
  lemma TerminatorIsThere(d: seq<byte>, n: nat)
    requires |d| <= n < TOPIC_SIZE
    ensures Overwrite(ZeroBytes(TOPIC_SIZE), 0, d)[n := 0] == Overwrite(ZeroBytes(TOPIC_SIZE), 0, d)
  {
  }

  lemma OpeningFits(e: Event)
    ensures e.offset == 0 ==> e.SumFits()
  {
  }

  /** The static buffer and the queue it feeds. */
  class MqttManager {
    const topic: array<byte>
    const payload: array<byte>
    var totalLen: CInt
    var receivedLen: CInt
    var active: bool
    var dropping: bool
    var queue: seq<Message>

    ghost predicate Valid()
      reads this
    {
      topic.Length == TOPIC_SIZE && payload.Length == PAYLOAD_SIZE && topic != payload
    }

    ghost function Value(): (s: State)
      requires Valid()
      reads this, topic, payload
      ensures s.asm.Valid()
    {
      State(Assembly(topic[..], payload[..], totalLen, receivedLen, active, dropping), queue)
    }

    constructor ()
      ensures Valid() && Value() == State(CLEARED, [])
      ensures fresh(topic) && fresh(payload)
    {
      topic := new byte[TOPIC_SIZE](_ => 0);
      payload := new byte[PAYLOAD_SIZE](_ => 0);
      totalLen, receivedLen, active, dropping, queue := 0, 0, false, false, [];
      new;
      assert topic[..] == ZeroBytes(TOPIC_SIZE) && payload[..] == ZeroBytes(PAYLOAD_SIZE);
    }

    /** memset of the whole assembly to zero. */
    method Clear()
      requires Valid()
      modifies this`totalLen, this`receivedLen, this`active, this`dropping, topic, payload
      ensures Valid() && Value() == State(CLEARED, old(queue))
    {
      forall i | 0 <= i < topic.Length { topic[i] := 0; }
      forall i | 0 <= i < payload.Length { payload[i] := 0; }
      totalLen, receivedLen, active, dropping := 0, 0, false, false;
      assert topic[..] == ZeroBytes(TOPIC_SIZE) && payload[..] == ZeroBytes(PAYLOAD_SIZE);
    }

    /** memcpy: every write is at an index of the buffer. */
    static method Copy(buffer: array<byte>, at: nat, source: Option<seq<byte>>, n: nat)
      requires at + n <= buffer.Length
      requires source.Some? ==> n <= |source.value|
      requires n > 0 ==> source.Some?
      modifies buffer
      ensures buffer[..] == Overwrite(old(buffer[..]), at, Bytes(source, n))
    {
      if n == 0 {
        assert buffer[..] == Overwrite(buffer[..], at, []);
        return;
      }
      for i := 0 to n
        invariant forall k :: 0 <= k < buffer.Length ==>
                    buffer[k] == if at <= k < at + i then source.value[k - at] else old(buffer[k])
      {
        buffer[at + i] := source.value[i];
      }
      assert buffer[..] == Overwrite(old(buffer[..]), at, Bytes(source, n));
    }

    /**
     * handle_mqtt_data. Only a fragment that is copied must end within an int, which is what keeps the copy
     * inside the buffer: see CopyInBoundsIffSumFits. Any other event may have an overflowing sum.
     */
    method HandleData(e: Event)
      requires Valid() && e.Readable() && !Overruns(Value().asm, e)
      modifies this, topic, payload
      ensures Valid() && Value() == Step(old(Value()), e)
    {
      OpeningFits(e);
      hide Store, Storable, Offer, Overwrite;
      if e.offset == 0 {
        Clear();
        if (e.topicLen > 0 && e.topic.None?) || (e.dataLen > 0 && e.data.None?) {
          return;
        }
        if e.topicLen >= TOPIC_SIZE || e.totalLen >= PAYLOAD_SIZE {
          dropping := true;
          totalLen := e.totalLen;
          return;
        }
        Copy(topic, 0, e.topic, e.topicLen);
        topic[e.topicLen] := 0;
        totalLen := e.totalLen;
        active := true;
        TerminatorIsThere(Bytes(e.topic, e.topicLen), e.topicLen);
        assert Value() == State(Opened(e), old(queue));
      } else if dropping {
        if AddInt(e.offset, e.dataLen) >= totalLen {
          Clear();
        }
        return;
      } else if !active {
        return;
      }
      StoreFragment(e);
    }

    method StoreFragment(e: Event)
      requires Valid() && e.Readable() && (Storable(totalLen, e) ==> e.SumFits())
      modifies this, topic, payload
      ensures Valid() && Value() == Store(old(Value()), e)
    {
      if e.dataLen > 0 && e.data.None? {
        Clear();
        return;
      }
      if e.offset < 0 || e.dataLen < 0
         || AddInt(e.offset, e.dataLen) > totalLen || AddInt(e.offset, e.dataLen) >= PAYLOAD_SIZE {
        Clear();
        return;
      }
      Copy(payload, e.offset, e.data, e.dataLen);
      receivedLen := AddInt(receivedLen, e.dataLen);
      if AddInt(e.offset, e.dataLen) == totalLen {
        payload[totalLen] := 0;
        if receivedLen != totalLen {
          Clear();
          return;
        }
        if |queue| < QUEUE_LENGTH {
          queue := queue + [Message(topic[..], payload[..])];
        }
        Clear();
      }
    }
  }
}
