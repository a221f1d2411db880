/** Which bytes of an enqueued payload were written: the handler counts bytes, not coverage. */
module MqttCoverage {
  import opened FixedWidth
  import opened Wrappers
  import opened MqttAssembly

  /** A fragment that passed the checks and was copied. */
  datatype Fragment = Fragment(offset: nat, data: seq<byte>)

  predicate Writes(f: Fragment, k: int) { f.offset <= k < f.offset + |f.data| }

  function Range(f: Fragment): (r: set<int>) {
    set k: int | f.offset <= k < f.offset + |f.data| && Writes(f, k)
  }

  function Cover(fs: seq<Fragment>): set<int> {
    if fs == [] then {} else Cover(fs[..|fs| - 1]) + Range(fs[|fs| - 1])
  }

  function Total(fs: seq<Fragment>): nat {
    if fs == [] then 0 else Total(fs[..|fs| - 1]) + |fs[|fs| - 1].data|
  }

  ghost predicate Disjoint(fs: seq<Fragment>) {
    forall i, j, k :: 0 <= i < j < |fs| && Writes(fs[i], k) ==> !Writes(fs[j], k)
  }

  /** The payload buffer after the fragments, each copied over the earlier ones. */
  function Painted(fs: seq<Fragment>): (p: seq<byte>)
    requires forall f :: f in fs ==> f.offset + |f.data| <= PAYLOAD_SIZE
    ensures |p| == PAYLOAD_SIZE
  {
    if fs == [] then ZeroBytes(PAYLOAD_SIZE)
    else Overwrite(Painted(fs[..|fs| - 1]), fs[|fs| - 1].offset, fs[|fs| - 1].data)
  }

  // ----- runs over arbitrary events -----

  /** The handler state, and the fragments accepted since the last offset-0 event. */
  datatype History = History(state: State, accepted: seq<Fragment>)

  function NextHistory(h: History, e: Event): (r: History)
    requires e.Readable() && h.state.asm.Valid()
    ensures r.state.asm.Valid()
  {
    var before := if e.offset == 0 then [] else h.accepted;
    History(Step(h.state, e),
            if Copies(h.state.asm, e) then before + [Fragment(e.offset, Bytes(e.data, e.dataLen))] else before)
  }

  function Histories(events: seq<Event>): (h: History)
    requires forall e :: e in events ==> e.Readable()
    ensures h.state.asm.Valid()
  {
    if events == [] then History(State(CLEARED, []), [])
    else NextHistory(Histories(events[..|events| - 1]), events[|events| - 1])
  }

  /** No event of the run copies a fragment behind the buffer; sums that overflow elsewhere do not matter. */
  ghost predicate NoOverrun(events: seq<Event>)
    requires forall e :: e in events ==> e.Readable()
  {
    forall i :: 0 <= i < |events| ==> !Overruns(Histories(events[..i]).state.asm, events[i])
  }

  lemma NoOverrunFront(events: seq<Event>)
    requires (forall e :: e in events ==> e.Readable()) && NoOverrun(events) && events != []
    ensures var front := events[..|events| - 1];
            NoOverrun(front) && !Overruns(Histories(front).state.asm, events[|events| - 1])
  {
    hide Overruns, Histories;
    var front := events[..|events| - 1];
    forall i | 0 <= i < |front| ensures front[..i] == events[..i] && front[i] == events[i] {}
  }

  lemma FittingSumsDoNotOverrun(events: seq<Event>)
    requires forall e :: e in events ==> e.Readable() && e.SumFits()
    ensures NoOverrun(events)
  {
    hide Histories, Copies;
    forall i | 0 <= i < |events| ensures !Overruns(Histories(events[..i]).state.asm, events[i]) {
      assert events[i] in events;
    }
  }

  /** While a message is being assembled, its counter is that of the accepted fragments modulo 2^32. */
  ghost predicate Inv(h: History) {
    && (forall f :: f in h.accepted ==> f.offset + |f.data| < PAYLOAD_SIZE)
    && (h.state.asm.active ==>
          && 0 <= h.state.asm.totalLen < PAYLOAD_SIZE
          && (forall f :: f in h.accepted ==> f.offset + |f.data| <= h.state.asm.totalLen)
          && h.state.asm.receivedLen == Wrap32(Total(h.accepted))
          && h.state.asm.payload == Painted(h.accepted))
  }

  /** The assembly that an event is checked against. */
  function Current(a: Assembly, e: Event): (b: Assembly)
    requires e.Readable() && a.Valid()
    ensures b.Valid()
  {
    if e.offset != 0 then a else if MissingBuffers(e) || Oversized(e) then CLEARED else Opened(e)
  }

  function Written(a: Assembly, e: Event): (p: seq<byte>)
    requires e.Readable() && a.Valid() && Copies(a, e) && e.SumFits()
    ensures |p| == PAYLOAD_SIZE
  {
    Overwrite(Current(a, e).payload, e.offset, Bytes(e.data, e.dataLen))
  }

  /** The event reaches the call that sends the message to the queue. */
  predicate Completes(a: Assembly, e: Event)
    requires e.Readable() && a.Valid()
  {
    && Copies(a, e) && e.SumFits()
    && AddInt(e.offset, e.dataLen) == Current(a, e).totalLen
    && AddInt(Current(a, e).receivedLen, e.dataLen) == Current(a, e).totalLen
  }

  function Enqueued(a: Assembly, e: Event): (m: Message)
    requires e.Readable() && a.Valid() && Completes(a, e)
    ensures |m.payload| == PAYLOAD_SIZE
  {
    Message(Current(a, e).topic, Written(a, e)[Current(a, e).totalLen := 0])
  }

  /** Only a completing event touches the queue, and it clears the assembly. */
  lemma StepCases(s: State, e: Event)
    requires e.Readable() && s.asm.Valid() && !Overruns(s.asm, e)
    ensures Completes(s.asm, e) ==> Step(s, e) == State(CLEARED, Offer(s.queue, Enqueued(s.asm, e)))
    ensures !Completes(s.asm, e) ==> Step(s, e).queue == s.queue
    ensures !Copies(s.asm, e) ==> !Step(s, e).asm.active || (e.offset != 0 && Step(s, e).asm == s.asm)
    ensures Copies(s.asm, e) && Step(s, e).asm.active ==>
              Step(s, e).asm == Current(s.asm, e).(payload := Written(s.asm, e),
                                                   receivedLen := AddInt(Current(s.asm, e).receivedLen, e.dataLen))
  {
  }

  lemma InvNext(h: History, e: Event)
    requires e.Readable() && h.state.asm.Valid() && Inv(h) && !Overruns(h.state.asm, e)
    ensures Inv(NextHistory(h, e))
    ensures Copies(h.state.asm, e) ==>
              var fs := NextHistory(h, e).accepted;
              && 0 <= Current(h.state.asm, e).totalLen < PAYLOAD_SIZE
              && (forall f :: f in fs ==> f.offset + |f.data| <= Current(h.state.asm, e).totalLen)
              && AddInt(Current(h.state.asm, e).receivedLen, e.dataLen) == Wrap32(Total(fs))
              && Written(h.state.asm, e) == Painted(fs)
  {
    var r := NextHistory(h, e);
    StepCases(h.state, e);
    hide Step, Overwrite, ZeroBytes, Storable;
    if Copies(h.state.asm, e) {
      AcceptedNext(h, e);
    }
  }

  /** What the fragments before an event that is copied account for. */
  lemma CurrentAssembly(h: History, e: Event)
    requires e.Readable() && h.state.asm.Valid() && Inv(h) && Copies(h.state.asm, e) && e.SumFits()
    ensures var before := if e.offset == 0 then [] else h.accepted;
            var a := Current(h.state.asm, e);
            && NextHistory(h, e).accepted == before + [Fragment(e.offset, Bytes(e.data, e.dataLen))]
            && |Bytes(e.data, e.dataLen)| == e.dataLen && 0 <= e.offset + e.dataLen <= a.totalLen < PAYLOAD_SIZE
            && (forall f :: f in before ==> f.offset + |f.data| <= a.totalLen)
            && a.receivedLen == Wrap32(Total(before)) && a.payload == Painted(before)
  {
    hide Step, Overwrite, ZeroBytes;
  }

  lemma AcceptedNext(h: History, e: Event)
    requires e.Readable() && h.state.asm.Valid() && Inv(h) && Copies(h.state.asm, e) && e.SumFits()
    ensures var fs := NextHistory(h, e).accepted;
            && 0 <= Current(h.state.asm, e).totalLen < PAYLOAD_SIZE
            && (forall f :: f in fs ==> f.offset + |f.data| <= Current(h.state.asm, e).totalLen)
            && AddInt(Current(h.state.asm, e).receivedLen, e.dataLen) == Wrap32(Total(fs))
            && Written(h.state.asm, e) == Painted(fs)
  {
    CurrentAssembly(h, e);
    assert Written(h.state.asm, e) == Overwrite(Current(h.state.asm, e).payload, e.offset, Bytes(e.data, e.dataLen));
    hide *;
    var before := if e.offset == 0 then [] else h.accepted;
    var f := Fragment(e.offset, Bytes(e.data, e.dataLen));
    AppendFragment(before, f);
    WrapAdd(Total(before), e.dataLen);
  }

  lemma WrapAdd(n: nat, d: CInt)
    ensures AddInt(Wrap32(n), d) == Wrap32(n + d)
  {
  }

  lemma {:induction false} AppendFragment(fs: seq<Fragment>, f: Fragment)
    requires forall g :: g in fs ==> g.offset + |g.data| <= PAYLOAD_SIZE
    requires f.offset + |f.data| <= PAYLOAD_SIZE
    ensures Painted(fs + [f]) == Overwrite(Painted(fs), f.offset, f.data)
    ensures Total(fs + [f]) == Total(fs) + |f.data|
  {
    assert (fs + [f])[..|fs|] == fs;
  }

  lemma {:induction false} InvAlways(events: seq<Event>)
    requires (forall e :: e in events ==> e.Readable()) && NoOverrun(events)
    ensures Inv(Histories(events))
    decreases |events|
  {
    hide NoOverrun, Overruns, NextHistory;
    if events != [] {
      NoOverrunFront(events);
      InvAlways(events[..|events| - 1]);
      InvNext(Histories(events[..|events| - 1]), events[|events| - 1]);
    }
  }

  // ----- refused fragments -----

  /** A message is under way, or an oversized one is being dropped, or the assembly is clear. */
  predicate Settled(a: Assembly) {
    if a.active then !a.dropping else a == CLEARED || a == CLEARED.(dropping := true, totalLen := a.totalLen)
  }

  /** An event that is not copied leaves no message under way. */
  lemma RefusedIsIdle(s: State, e: Event)
    requires e.Readable() && s.asm.Valid() && Settled(s.asm)
    ensures Settled(Step(s, e).asm)
    ensures Step(s, e).asm.dropping && !s.asm.dropping ==> e.offset == 0 && Oversized(e) && !MissingBuffers(e)
    ensures !Copies(s.asm, e) ==> !Step(s, e).asm.active && Step(s, e).queue == s.queue
    ensures !s.asm.active && e.offset != 0 ==> !Copies(s.asm, e)
  {
    hide Overwrite, ZeroBytes, Storable, Offer;
  }

  lemma {:induction false} SettledAlways(events: seq<Event>)
    requires forall e :: e in events ==> e.Readable()
    ensures Settled(Histories(events).state.asm)
    decreases |events|
  {
    hide Step;
    if events != [] {
      SettledAlways(events[..|events| - 1]);
      RefusedIsIdle(Histories(events[..|events| - 1]).state, events[|events| - 1]);
    }
  }

  /**
   * After any run, an event whose fragment is not copied, be it malformed, oversized or out of place, ends the
   * message under way: whatever fragments come behind it, nothing is sent before the next event at offset 0.
   */
  lemma {:induction false} NothingSentAfterRefusal(events: seq<Event>, e: Event, later: seq<Event>)
    requires e.Readable() && forall x :: x in events || x in later ==> x.Readable()
    requires !Copies(Histories(events).state.asm, e) && forall x :: x in later ==> x.offset != 0
    ensures forall x :: x in events + [e] + later ==> x.Readable()
    ensures var r := Histories(events + [e] + later).state;
            !r.asm.active && r.queue == Histories(events).state.queue
    decreases |later|
  {
    hide Step, Copies, Histories;
    if later == [] {
      assert events + [e] + later == events + [e];
      SettledAlways(events);
      RefusedIsIdle(Histories(events).state, e);
      HistoriesAppend(events, e);
    } else {
      var front, last := later[..|later| - 1], later[|later| - 1];
      assert later == front + [last] && events + [e] + later == (events + [e] + front) + [last];
      NothingSentAfterRefusal(events, e, front);
      SettledAlways(events + [e] + front);
      RefusedIsIdle(Histories(events + [e] + front).state, last);
      HistoriesAppend(events + [e] + front, last);
    }
  }

  // ----- counting -----

  lemma {:induction false} RangeSize(f: Fragment)
    ensures |Range(f)| == |f.data|
    decreases |f.data|
  {
    if f.data == [] {
      assert Range(f) == {};
    } else {
      var last := |f.data| - 1;
      var g := Fragment(f.offset, f.data[..last]);
      RangeSize(g);
      assert Range(f) == Range(g) + {f.offset + last};
    }
  }

  lemma UnionSize(a: set<int>, b: set<int>)
    ensures |a + b| <= |a| + |b|
    ensures |a + b| == |a| + |b| <==> a !! b
  {
    assert |a + b| == |a| + |b| - |a * b|;
    if a !! b {
      assert a * b == {};
    }
    if |a * b| == 0 {
      forall x | x in a ensures x !in b {
        assert x in a * b <==> x in b;
      }
    }
  }

  lemma {:induction false} InCover(fs: seq<Fragment>, k: int)
    ensures k in Cover(fs) <==> exists i :: 0 <= i < |fs| && Writes(fs[i], k)
    decreases |fs|
  {
    if fs != [] {
      var front := fs[..|fs| - 1];
      InCover(front, k);
      if i :| 0 <= i < |fs| && Writes(fs[i], k) {
        if i < |front| {
          assert Writes(front[i], k);
        }
      }
      if i :| 0 <= i < |front| && Writes(front[i], k) {
        assert Writes(fs[i], k);
      }
      if k in Range(fs[|fs| - 1]) {
        assert Writes(fs[|fs| - 1], k);
      }
    }
  }

  lemma DisjointSplit(fs: seq<Fragment>)
    requires fs != []
    ensures Disjoint(fs) <==> Disjoint(fs[..|fs| - 1]) && Cover(fs[..|fs| - 1]) !! Range(fs[|fs| - 1])
  {
    var front, last := fs[..|fs| - 1], fs[|fs| - 1];
    forall k ensures k in Cover(front) <==> exists i :: 0 <= i < |front| && Writes(front[i], k) {
      InCover(front, k);
    }
    if Disjoint(fs) {
      forall k | k in Cover(front) ensures k !in Range(last) {
        var i :| 0 <= i < |front| && Writes(front[i], k);
        assert Writes(fs[i], k);
      }
    }
    if Disjoint(front) && Cover(front) !! Range(last) {
      forall i, j, k | 0 <= i < j < |fs| && Writes(fs[i], k) ensures !Writes(fs[j], k) {
        assert fs[i] == front[i];
        if j == |front| {
          assert k in Cover(front);
        } else {
          assert fs[j] == front[j];
        }
      }
    }
  }

  /** Fragments cover as many positions as they have bytes exactly when they are pairwise disjoint. */
  lemma {:induction false} CoverSize(fs: seq<Fragment>)
    ensures |Cover(fs)| <= Total(fs)
    ensures |Cover(fs)| == Total(fs) <==> Disjoint(fs)
    decreases |fs|
  {
    if fs != [] {
      var front, last := fs[..|fs| - 1], fs[|fs| - 1];
      CoverSize(front);
      RangeSize(last);
      UnionSize(Cover(front), Range(last));
      DisjointSplit(fs);
    }
  }

  ghost predicate FullyCovered(fs: seq<Fragment>, total: nat) {
    forall k :: 0 <= k < total ==> k in Cover(fs)
  }

  lemma {:induction false} CoverWithin(fs: seq<Fragment>, total: nat)
    requires forall f :: f in fs ==> f.offset + |f.data| <= total
    ensures forall k :: k in Cover(fs) ==> 0 <= k < total
  {
    forall k | k in Cover(fs) ensures 0 <= k < total {
      InCover(fs, k);
      var i :| 0 <= i < |fs| && Writes(fs[i], k);
      assert fs[i] in fs;
    }
  }

  /** The positions below n. */
  function Below(n: nat): (r: set<int>)
    ensures |r| == n
    ensures forall k :: k in r <==> 0 <= k < n
  {
    if n == 0 then {} else Below(n - 1) + {n - 1}
  }

  lemma {:induction false} CoverageIffDisjoint(fs: seq<Fragment>, total: nat)
    requires Total(fs) == total
    requires forall f :: f in fs ==> f.offset + |f.data| <= total
    ensures FullyCovered(fs, total) <==> Disjoint(fs)
  {
    CoverSize(fs);
    CoverWithin(fs, total);
    hide Cover, Total, Disjoint, Below;
    var c, all := Cover(fs), Below(total);
    assert c <= all;
    if |c| == total {
      SubsetOfSameSize(c, all);
    }
    if FullyCovered(fs, total) {
      assert c == all;
    }
  }

  lemma SubsetOfSameSize(a: set<int>, b: set<int>)
    requires a <= b && |a| == |b|
    ensures a == b
  {
    assert |b - a| == 0;
  }

  /** A byte written by one fragment only has that fragment's value. */
  lemma {:induction false} PaintedByOnlyWriter(fs: seq<Fragment>, i: nat, k: int)
    requires forall f :: f in fs ==> f.offset + |f.data| <= PAYLOAD_SIZE
    requires i < |fs| && Writes(fs[i], k)
    requires forall j :: i < j < |fs| ==> !Writes(fs[j], k)
    ensures 0 <= k < PAYLOAD_SIZE && Painted(fs)[k] == fs[i].data[k - fs[i].offset]
    decreases |fs|
  {
    assert fs[i] in fs;
    var front := fs[..|fs| - 1];
    if i < |front| {
      assert !Writes(fs[|fs| - 1], k);
      assert forall j :: 0 <= j < |front| ==> front[j] == fs[j];
      PaintedByOnlyWriter(front, i, k);
    }
  }

  /** Each position that a fragment writes is below the declared length and holds that fragment's byte. */
  ghost predicate ValuesOfWriters(fs: seq<Fragment>, total: int, payload: seq<byte>) {
    && total < |payload|
    && forall i, k :: 0 <= i < |fs| && Writes(fs[i], k) ==>
         0 <= k < total && payload[k] == fs[i].data[k - fs[i].offset]
  }

  /**
   * For every run: when a message is sent to the queue, its bytes counted modulo 2^32 are its declared length;
   * the fragments are pairwise disjoint if and only if every byte below that length was written and the
   * count did not overflow; and then each byte has the value of its one writer.
   */
  lemma {:induction false} EnqueuedCoveredIffDisjoint(events: seq<Event>, e: Event)
    requires e.Readable() && (forall x :: x in events ==> x.Readable()) && NoOverrun(events)
    requires Completes(Histories(events).state.asm, e)
    ensures var h := Histories(events);
            var fs, total := NextHistory(h, e).accepted, Current(h.state.asm, e).totalLen;
            var m := Enqueued(h.state.asm, e);
            && Step(h.state, e).queue == Offer(h.state.queue, m)
            && 0 <= total < PAYLOAD_SIZE && Wrap32(Total(fs)) == total
            && (Disjoint(fs) <==> FullyCovered(fs, total) && Total(fs) < 0x8000_0000)
            && (Disjoint(fs) ==> ValuesOfWriters(fs, total, m.payload))
  {
    var h := Histories(events);
    assert !Overruns(h.state.asm, e);
    hide *;
    InvAlways(events);
    StepCases(h.state, e);
    CompletesCopies(h.state.asm, e);
    CompletionFacts(h, e);
  }

  lemma CompletesCopies(a: Assembly, e: Event)
    requires e.Readable() && a.Valid() && Completes(a, e)
    ensures Copies(a, e) && e.SumFits()
  {
  }

  lemma CompletionFacts(h: History, e: Event)
    requires e.Readable() && h.state.asm.Valid() && Inv(h) && Completes(h.state.asm, e)
    ensures var fs, total := NextHistory(h, e).accepted, Current(h.state.asm, e).totalLen;
            var m := Enqueued(h.state.asm, e);
            && 0 <= total < PAYLOAD_SIZE && Wrap32(Total(fs)) == total
            && (Disjoint(fs) <==> FullyCovered(fs, total) && Total(fs) < 0x8000_0000)
            && (Disjoint(fs) ==> ValuesOfWriters(fs, total, m.payload))
  {
    AcceptedNext(h, e);
    var fs, total := NextHistory(h, e).accepted, Current(h.state.asm, e).totalLen;
    var m := Enqueued(h.state.asm, e);
    assert m.payload == Painted(fs)[total := 0];
    assert forall f :: f in fs ==> f.offset + |f.data| <= total;
    assert Total(fs) < 0x8000_0000 ==> Wrap32(Total(fs)) == Total(fs);
    hide *;
    DisjointCountFits(fs, total);
    if Total(fs) < 0x8000_0000 {
      CoverageIffDisjoint(fs, total);
    }
    if Disjoint(fs) {
      WritersValues(fs, total);
    }
  }

  /** Disjoint fragments inside a length have no more bytes than it. */
  lemma {:induction false} DisjointCountFits(fs: seq<Fragment>, total: nat)
    requires forall f :: f in fs ==> f.offset + |f.data| <= total
    ensures Disjoint(fs) ==> Total(fs) <= total
  {
    CoverSize(fs);
    CoverWithin(fs, total);
    hide Cover, Total, Disjoint, Below;
    SubsetIsSmaller(Cover(fs), Below(total));
  }

  lemma SubsetIsSmaller(a: set<int>, b: set<int>)
    ensures a <= b ==> |a| <= |b|
  {
    if a <= b {
      assert |b| == |a| + |b - a| by { assert b == a + (b - a); }
    }
  }

  lemma {:induction false} WritersValues(fs: seq<Fragment>, total: nat)
    requires forall f :: f in fs ==> f.offset + |f.data| <= total
    requires Disjoint(fs) && total < PAYLOAD_SIZE
    ensures ValuesOfWriters(fs, total, Painted(fs)[total := 0])
  {
    hide Painted, Disjoint;
    forall i, k | 0 <= i < |fs| && Writes(fs[i], k)
      ensures 0 <= k < total && Painted(fs)[total := 0][k] == fs[i].data[k - fs[i].offset]
    {
      OnlyWriterValue(fs, total, i, k);
    }
  }

  lemma {:induction false} OnlyWriterValue(fs: seq<Fragment>, total: nat, i: nat, k: int)
    requires forall f :: f in fs ==> f.offset + |f.data| <= total < PAYLOAD_SIZE
    requires Disjoint(fs) && i < |fs| && Writes(fs[i], k)
    ensures 0 <= k < total && Painted(fs)[total := 0][k] == fs[i].data[k - fs[i].offset]
  {
    assert fs[i] in fs;
    PaintedByOnlyWriter(fs, i, k);
  }

  // ----- runs of overlapping fragments -----

  /** A message of three bytes: the opening event with its first bytes, then n times the second byte. */
  function Opening(first: seq<byte>): (e: Event)
    requires |first| <= 1
    ensures e.Readable() && e.SumFits()
  {
    Event(Some([]), 0, Some(first), |first|, 3, 0)
  }

  const SECOND := Event(None, 0, Some([7]), 1, 3, 1)
  const THIRD := Event(None, 0, Some([8]), 1, 3, 2)

  function Repeating(first: seq<byte>, n: nat): (events: seq<Event>)
    requires |first| <= 1
    ensures forall e :: e in events ==> e.Readable() && e.SumFits()
  {
    if n == 0 then [Opening(first)] else Repeating(first, n - 1) + [SECOND]
  }

  function Received(first: seq<byte>, n: nat): seq<Fragment> {
    if n == 0 then [Fragment(0, first)] else Received(first, n - 1) + [Fragment(1, [7])]
  }

  ghost predicate Assembling(h: History, received: int, fs: seq<Fragment>) {
    && h.state.asm.Valid() && h.state.asm.active && !h.state.asm.dropping && h.state.asm.totalLen == 3
    && h.state.asm.receivedLen == received && h.accepted == fs
  }

  lemma OpeningStored(h: History, first: seq<byte>)
    requires h.state.asm.Valid() && |first| <= 1
    ensures Assembling(NextHistory(h, Opening(first)), |first|, [Fragment(0, first)])
  {
    assert Bytes(Some(first), |first|) == first;
  }

  lemma SecondStored(h: History, received: CInt, fs: seq<Fragment>)
    requires Assembling(h, received, fs)
    ensures SECOND.Readable() && Assembling(NextHistory(h, SECOND), AddInt(received, 1), fs + [Fragment(1, [7])])
  {
    assert Bytes(SECOND.data, 1) == [7];
  }

  lemma ThirdCompletes(h: History, received: CInt, fs: seq<Fragment>)
    requires Assembling(h, received, fs) && AddInt(received, 1) == 3
    ensures THIRD.Readable() && Completes(h.state.asm, THIRD) && Current(h.state.asm, THIRD).totalLen == 3
    ensures NextHistory(h, THIRD).accepted == fs + [Fragment(2, [8])]
  {
    assert Bytes(THIRD.data, 1) == [8];
  }

  lemma {:induction false} HistoriesAppend(events: seq<Event>, e: Event)
    requires e.Readable() && forall x :: x in events ==> x.Readable()
    ensures forall x :: x in events + [e] ==> x.Readable()
    ensures Histories(events + [e]) == NextHistory(Histories(events), e)
  {
    assert (events + [e])[..|events|] == events;
  }

  lemma {:induction false} RepeatingAssembles(first: seq<byte>, n: nat)
    requires |first| <= 1
    ensures Assembling(Histories(Repeating(first, n)), Wrap32(|first| + n), Received(first, n))
    decreases n
  {
    hide Histories, NextHistory, Assembling, Opening;
    if n == 0 {
      HistoriesAppend([], Opening(first));
      OpeningStored(Histories([]), first);
      assert [] + [Opening(first)] == [Opening(first)];
      assert Wrap32(|first|) == |first|;
    } else {
      RepeatingAssembles(first, n - 1);
      WrapAdd(|first| + n - 1, 1);
      hide Wrap32;
      SecondStored(Histories(Repeating(first, n - 1)), Wrap32(|first| + n - 1), Received(first, n - 1));
      HistoriesAppend(Repeating(first, n - 1), SECOND);
    }
  }

  lemma {:induction false} CoverAppend(fs: seq<Fragment>, f: Fragment, k: int)
    ensures k in Cover(fs + [f]) <==> k in Cover(fs) || Writes(f, k)
    ensures Total(fs + [f]) == Total(fs) + |f.data|
  {
    assert (fs + [f])[..|fs|] == fs;
  }

  lemma EmptyCover(k: int)
    ensures k !in Cover([]) && Total([]) == 0
  {
  }

  lemma {:induction false} ReceivedCover(first: seq<byte>, n: nat, k: int)
    ensures k in Cover(Received(first, n)) <==> 0 <= k < |first| || (n > 0 && k == 1)
    ensures Total(Received(first, n)) == |first| + n
    decreases n
  {
    hide Cover, Total;
    if n == 0 {
      EmptyCover(k);
      CoverAppend([], Fragment(0, first), k);
      assert [] + [Fragment(0, first)] == [Fragment(0, first)];
    } else {
      ReceivedCover(first, n - 1, k);
      CoverAppend(Received(first, n - 1), Fragment(1, [7]), k);
    }
  }

  lemma {:induction false} RepeatingCompletes(first: seq<byte>, n: nat, k: int)
    requires |first| <= 1 && AddInt(Wrap32(|first| + n), 1) == 3
    ensures THIRD.Readable() && Completes(Histories(Repeating(first, n)).state.asm, THIRD)
    ensures Current(Histories(Repeating(first, n)).state.asm, THIRD).totalLen == 3
    ensures var fs := NextHistory(Histories(Repeating(first, n)), THIRD).accepted;
            && (k in Cover(fs) <==> 0 <= k < |first| || (n > 0 && k == 1) || k == 2)
            && Total(fs) == |first| + n + 1
  {
    hide *;
    RepeatingAssembles(first, n);
    ThirdCompletes(Histories(Repeating(first, n)), Wrap32(|first| + n), Received(first, n));
    ReceivedCover(first, n, k);
    CoverAppend(Received(first, n), Fragment(2, [8]), k);
    WritesOneByte(2, 8, k);
  }

  lemma WritesOneByte(offset: nat, b: byte, k: int)
    ensures Writes(Fragment(offset, [b]), k) <==> k == offset
  {
  }

  /** Three bytes are counted for a message of three bytes whose first byte never arrived. */
  lemma CountingIsNotCoverage() returns (events: seq<Event>, e: Event)
    ensures e.Readable() && (forall x :: x in events ==> x.Readable()) && NoOverrun(events)
    ensures Completes(Histories(events).state.asm, e) && Current(Histories(events).state.asm, e).totalLen == 3
    ensures 0 !in Cover(NextHistory(Histories(events), e).accepted)
  {
    assert AddInt(Wrap32(2), 1) == 3;
    hide *;
    events, e := Repeating([], 2), THIRD;
    FittingSumsDoNotOverrun(events);
    RepeatingCompletes([], 2, 0);
  }

  lemma {:induction false} RepeatingCovers(n: nat)
    requires n > 0 && AddInt(Wrap32(1 + n), 1) == 3
    ensures THIRD.Readable() && Completes(Histories(Repeating([7], n)).state.asm, THIRD)
    ensures Current(Histories(Repeating([7], n)).state.asm, THIRD).totalLen == 3
    ensures var fs := NextHistory(Histories(Repeating([7], n)), THIRD).accepted;
            FullyCovered(fs, 3) && Total(fs) == n + 2
  {
    hide Cover, Total, Histories, NextHistory, Completes, Current, Repeating, THIRD, Wrap32, AddInt;
    RepeatingCompletes([7], n, 0);
    forall k | 0 <= k < 3 ensures k in Cover(NextHistory(Histories(Repeating([7], n)), THIRD).accepted) {
      RepeatingCompletes([7], n, k);
    }
  }

  /** After more than 2^32 bytes for a message of three the counter is right again, and every byte has arrived. */
  lemma CoverageIsNotDisjointness() returns (events: seq<Event>, e: Event)
    ensures e.Readable() && (forall x :: x in events ==> x.Readable()) && NoOverrun(events)
    ensures Completes(Histories(events).state.asm, e) && Current(Histories(events).state.asm, e).totalLen == 3
    ensures var fs := NextHistory(Histories(events), e).accepted; FullyCovered(fs, 3) && !Disjoint(fs)
  {
    var n := 0x1_0000_0001;
    assert AddInt(Wrap32(1 + n), 1) == 3;
    hide *;
    events, e := Repeating([7], n), THIRD;
    FittingSumsDoNotOverrun(events);
    RepeatingCovers(n);
    EnqueuedCoveredIffDisjoint(events, e);
  }
}
