/** SHT3x driver: measurement state, and the frames it reads. */
module Sht3x {
  import opened Wrappers
  import opened Gf2
  import opened Crc

  datatype Mode = SingleShot | Periodic05 | Periodic1 | Periodic2 | Periodic4 | Periodic10
  datatype Repeat = High | Medium | Low
  datatype Error = Ok | InvalidState | BusError | InvalidCrc

  /** Measurement durations in microseconds. */
  function Duration(r: Repeat): nat {
    match r case High => 15000 case Medium => 6000 case Low => 4000
  }

  /** What goes over the bus, with the time at which the driver looked at the clock. */
  datatype BusEvent =
    | Cleared
    | Started(mode: Mode, repeat: Repeat, time: nat)
    | StartFailed(mode: Mode, repeat: Repeat)
    | Fetched(time: nat)
    | FetchFailed(time: nat)
    | Stopped

  datatype Driver = Driver(mode: Mode, repeat: Repeat, startTime: nat, started: bool, first: bool,
                           clock: nat, trace: seq<BusEvent>)

  /** The public operations; elapse is how far the clock moves until the driver reads it. */
  datatype Op =
    | Init
    | Start(mode: Mode, repeat: Repeat, sent: bool, elapse: nat)
    | Fetch(reply: Option<seq<Byte>>, elapse: nat)
    | Stop(sent: bool)

  predicate IsMeasuring(d: Driver, now: nat)
    requires d.startTime <= now
  {
    d.started && d.first && now - d.startTime < Duration(d.repeat)
  }

  function Apply(d: Driver, op: Op): (r: Driver)
    requires d.startTime <= d.clock
    ensures r.startTime <= r.clock
  {
    match op
    case Init =>
      d.(mode := SingleShot, startTime := 0, started := false, first := false, trace := d.trace + [Cleared])
    case Start(mode, repeat, sent, elapse) =>
      if !sent then d.(mode := mode, repeat := repeat, trace := d.trace + [StartFailed(mode, repeat)])
      else
        var now := d.clock + elapse;
        d.(mode := mode, repeat := repeat, startTime := now, started := true, first := true,
           clock := now, trace := d.trace + [Started(mode, repeat, now)])
    case Fetch(reply, elapse) =>
      if !d.started then d
      else
        var now := d.clock + elapse;
        if IsMeasuring(d, now) then d.(clock := now)
        else if reply.None? then d.(clock := now, trace := d.trace + [FetchFailed(now)])
        else d.(first := false, started := d.mode != SingleShot, clock := now, trace := d.trace + [Fetched(now)])
    case Stop(sent) =>
      if !sent then d
      else d.(mode := SingleShot, startTime := 0, started := false, first := false, trace := d.trace + [Stopped])
  }

  function Run(d: Driver, ops: seq<Op>): (r: Driver)
    requires d.startTime <= d.clock
    ensures r.startTime <= r.clock
  {
    if ops == [] then d else Apply(Run(d, ops[..|ops| - 1]), ops[|ops| - 1])
  }

  /** The two words of a frame, each two data bytes and their checksum. */
  predicate ValidFrame(f: seq<Byte>)
    requires |f| == 6
  {
    Register8(f[..2]) == f[2] && Register8(f[3..5]) == f[5]
  }

  // ----- what every run keeps -----

  predicate IsFetch(e: BusEvent) { e.Fetched? || e.FetchFailed? }
  predicate IsStartCommand(e: BusEvent) { e.Started? || e.StartFailed? }

  predicate EndedBetween(trace: seq<BusEvent>, k: int, i: int)
    requires -1 <= k && i <= |trace|
  {
    exists j :: k < j < i && (trace[j].Cleared? || trace[j].Stopped?)
  }

  predicate StartedBetween(trace: seq<BusEvent>, k: int, i: int)
    requires -1 <= k && i <= |trace|
  {
    exists j :: k < j < i && trace[j].Started?
  }

  predicate FetchedBetween(trace: seq<BusEvent>, k: int, i: int)
    requires -1 <= k && i <= |trace|
  {
    exists j :: k < j < i && trace[j].Fetched?
  }

  /** Mode and repeatability that the last start command asked for, whether or not it was sent. */
  datatype Command = Command(mode: Mode, repeat: Repeat)

  function LastCommand(trace: seq<BusEvent>): Command {
    if trace == [] then Command(SingleShot, High)
    else
      match trace[|trace| - 1]
      case Started(mode, repeat, _) => Command(mode, repeat)
      case StartFailed(mode, repeat) => Command(mode, repeat)
      case _ => LastCommand(trace[..|trace| - 1])
  }

  /** At no fetch since the start at k had the last start command asked for single shot. */
  ghost predicate FetchesKept(trace: seq<BusEvent>, k: int, i: int)
    requires -1 <= k && i <= |trace|
  {
    forall j :: k < j < i && trace[j].Fetched? ==> LastCommand(trace[..j]).mode != SingleShot
  }

  /** The start at k is the latest before the fetch at i, and allows it. */
  ghost predicate Justifies(trace: seq<BusEvent>, k: int, i: int)
    requires 0 <= k < i < |trace| && IsFetch(trace[i])
  {
    && trace[k].Started?
    && !EndedBetween(trace, k, i) && !StartedBetween(trace, k, i) && FetchesKept(trace, k, i)
    && (FetchedBetween(trace, k, i) || trace[i].time >= trace[k].time + Duration(LastCommand(trace[..i]).repeat))
  }

  ghost predicate EveryFetchJustified(trace: seq<BusEvent>) {
    forall i :: 0 <= i < |trace| && IsFetch(trace[i]) ==> exists k :: 0 <= k < i && Justifies(trace, k, i)
  }

  /** The start whose measurement the sensor is still making or repeating. */
  ghost predicate LiveStart(d: Driver, k: int) {
    && 0 <= k < |d.trace| && d.trace[k].Started?
    && !EndedBetween(d.trace, k, |d.trace|) && !StartedBetween(d.trace, k, |d.trace|)
    && FetchesKept(d.trace, k, |d.trace|)
    && d.startTime == d.trace[k].time
    && (d.first <==> !FetchedBetween(d.trace, k, |d.trace|))
  }

  ghost predicate Inv(d: Driver) {
    && d.startTime <= d.clock
    && EveryFetchJustified(d.trace)
    && (d.started ==> Command(d.mode, d.repeat) == LastCommand(d.trace) && exists k :: LiveStart(d, k))
  }

  lemma BetweenAppend(trace: seq<BusEvent>, e: BusEvent, k: int, i: int)
    requires -1 <= k && i <= |trace|
    ensures EndedBetween(trace + [e], k, i) == EndedBetween(trace, k, i)
    ensures StartedBetween(trace + [e], k, i) == StartedBetween(trace, k, i)
    ensures FetchedBetween(trace + [e], k, i) == FetchedBetween(trace, k, i)
    ensures k < |trace| ==>
              (EndedBetween(trace + [e], k, |trace| + 1) <==>
                 EndedBetween(trace, k, |trace|) || e.Cleared? || e.Stopped?)
    ensures k < |trace| ==>
              (StartedBetween(trace + [e], k, |trace| + 1) <==> StartedBetween(trace, k, |trace|) || e.Started?)
    ensures k < |trace| ==>
              (FetchedBetween(trace + [e], k, |trace| + 1) <==> FetchedBetween(trace, k, |trace|) || e.Fetched?)
  {
    var t := trace + [e];
    assert t[|trace|] == e;
    assert forall j :: 0 <= j < |trace| ==> t[j] == trace[j];
  }

  lemma {:induction false} KeptAppend(trace: seq<BusEvent>, e: BusEvent, k: int, i: int)
    requires -1 <= k && i <= |trace|
    ensures FetchesKept(trace + [e], k, i) == FetchesKept(trace, k, i)
    ensures k < |trace| ==>
              (FetchesKept(trace + [e], k, |trace| + 1) <==>
                 FetchesKept(trace, k, |trace|) && (e.Fetched? ==> LastCommand(trace).mode != SingleShot))
  {
    hide LastCommand;
    var t := trace + [e];
    assert t[..|trace|] == trace && t[|trace|] == e;
    forall j | 0 <= j < |trace| ensures t[j] == trace[j] && t[..j] == trace[..j] {}
  }

  lemma {:induction false} LastCommandAppend(trace: seq<BusEvent>, e: BusEvent)
    ensures LastCommand(trace + [e])
            == if IsStartCommand(e) then Command(e.mode, e.repeat) else LastCommand(trace)
  {
    assert (trace + [e])[..|trace|] == trace;
  }

  /** The event that an operation puts on the bus, if any. */
  lemma Emits(d: Driver, op: Op) returns (e: Option<BusEvent>)
    requires d.startTime <= d.clock
    ensures e.None? ==> Apply(d, op).trace == d.trace
    ensures e.Some? ==> Apply(d, op).trace == d.trace + [e.value] && Apply(d, op).trace[|d.trace|] == e.value
    ensures e.Some? && IsFetch(e.value) ==>
              d.started && !IsMeasuring(d, Apply(d, op).clock) && e.value.time == Apply(d, op).clock >= d.clock
  {
    var r := Apply(d, op);
    e := if |r.trace| > |d.trace| then Some(r.trace[|d.trace|]) else None;
  }

  lemma JustifiedAppend(trace: seq<BusEvent>, e: BusEvent)
    requires EveryFetchJustified(trace)
    requires IsFetch(e) ==> exists k :: 0 <= k < |trace| && Justifies(trace + [e], k, |trace|)
    ensures EveryFetchJustified(trace + [e])
  {
    hide IsFetch, LastCommand, EndedBetween, StartedBetween, FetchedBetween, FetchesKept;
    var t := trace + [e];
    forall i | 0 <= i < |t| && IsFetch(t[i]) ensures exists k :: 0 <= k < i && Justifies(t, k, i) {
      if i < |trace| {
        assert IsFetch(trace[i]);
        var k :| 0 <= k < i && Justifies(trace, k, i);
        BetweenAppend(trace, e, k, i);
        KeptAppend(trace, e, k, i);
        assert t[..i] == trace[..i];
        assert Justifies(t, k, i);
      }
    }
  }

  /** A fetch that the driver lets out is allowed by its live start. */
  lemma FetchJustified(d: Driver, e: BusEvent, now: nat, k: int)
    requires d.startTime <= now && LiveStart(d, k) && d.started && Command(d.mode, d.repeat) == LastCommand(d.trace)
    requires IsFetch(e) && e.time == now && !IsMeasuring(d, now)
    ensures Justifies(d.trace + [e], k, |d.trace|)
  {
    hide LastCommand, EndedBetween, StartedBetween, FetchedBetween, FetchesKept;
    BetweenAppend(d.trace, e, k, |d.trace|);
    KeptAppend(d.trace, e, k, |d.trace|);
    assert (d.trace + [e])[..|d.trace|] == d.trace;
  }

  /** A driver that is still started has the same live start, or the one just made. */
  lemma LiveStartApply(d: Driver, op: Op)
    requires Inv(d) && Apply(d, op).started
    ensures exists k :: LiveStart(Apply(d, op), k)
  {
    hide EveryFetchJustified, LastCommand, EndedBetween, StartedBetween, FetchedBetween, FetchesKept;
    var r := Apply(d, op);
    var e := Emits(d, op);
    if op.Start? && op.sent {
      BetweenNone(r.trace);
      assert LiveStart(r, |d.trace|);
    } else {
      var k :| LiveStart(d, k);
      if e.Some? {
        BetweenAppend(d.trace, e.value, k, |d.trace|);
        KeptAppend(d.trace, e.value, k, |d.trace|);
      }
      assert LiveStart(r, k);
    }
  }

  lemma BetweenNone(trace: seq<BusEvent>)
    ensures !EndedBetween(trace, |trace| - 1, |trace|) && !StartedBetween(trace, |trace| - 1, |trace|)
    ensures !FetchedBetween(trace, |trace| - 1, |trace|) && FetchesKept(trace, |trace| - 1, |trace|)
  {
  }

  lemma InvApply(d: Driver, op: Op)
    requires Inv(d)
    ensures Inv(Apply(d, op))
  {
    hide EveryFetchJustified, Justifies, LiveStart, LastCommand;
    hide EndedBetween, StartedBetween, FetchedBetween, FetchesKept;
    var r := Apply(d, op);
    var e := Emits(d, op);
    if r.started {
      LiveStartApply(d, op);
    }
    if e.Some? {
      LastCommandAppend(d.trace, e.value);
      if IsFetch(e.value) {
        var k :| LiveStart(d, k);
        LiveInTrace(d, k);
        FetchJustified(d, e.value, r.clock, k);
      }
      JustifiedAppend(d.trace, e.value);
    }
  }

  lemma LiveInTrace(d: Driver, k: int)
    requires LiveStart(d, k)
    ensures 0 <= k < |d.trace|
  {
  }

  /**
   * Over every run from initialisation: each fetch follows a successful start with no stop or reset in
   * between; the first fetch after the latest start waits for the duration of the repeatability that was last
   * asked for; and no fetch follows one before which single shot was last asked for.
   */
  lemma {:induction false} FetchesAreJustified(d: Driver, ops: seq<Op>)
    requires d.trace == [] && !d.started && d.startTime <= d.clock
    ensures Inv(Run(d, ops)) && EveryFetchJustified(Run(d, ops).trace)
    decreases |ops|
  {
    if ops != [] {
      FetchesAreJustified(d, ops[..|ops| - 1]);
      InvApply(Run(d, ops[..|ops| - 1]), ops[|ops| - 1]);
    }
  }

  /** The driver lets a fetch out when the clock has moved by elapse. */
  predicate FetchGoesOut(d: Driver, elapse: nat)
    requires d.startTime <= d.clock
  {
    |Apply(d, Op.Fetch(None, elapse)).trace| > |d.trace|
  }

  ghost predicate RefusesFetches(d: Driver)
    requires d.startTime <= d.clock
  {
    forall elapse: nat :: !FetchGoesOut(d, elapse)
  }

  /** No fetch goes out before the duration of the measurement that was started at k is over. */
  ghost predicate WaitsForMeasurement(d: Driver, k: int)
    requires d.startTime <= d.clock && 0 <= k < |d.trace| && d.trace[k].Started?
  {
    forall elapse: nat :: FetchGoesOut(d, elapse) ==>
      d.clock + elapse >= d.trace[k].time + Duration(d.trace[k].repeat)
  }

  /**
   * In every run, as long as the measurement under way has not been fetched, the driver waits for its whole
   * duration if and only if that is over already or the last start command, even one that failed to be sent,
   * asked for at least as long a one.
   */
  lemma {:induction false} WaitIffNotShortened(d0: Driver, ops: seq<Op>, k: int)
    requires d0.trace == [] && !d0.started && d0.startTime <= d0.clock
    requires var d := Run(d0, ops); d.started && d.first && LiveStart(d, k)
    ensures var d := Run(d0, ops);
            WaitsForMeasurement(d, k) <==>
              d.clock >= d.trace[k].time + Duration(d.trace[k].repeat)
              || Duration(LastCommand(d.trace).repeat) >= Duration(d.trace[k].repeat)
  {
    FetchesAreJustified(d0, ops);
    hide Run, EveryFetchJustified, LastCommand, EndedBetween, StartedBetween, FetchedBetween, FetchesKept;
    var d := Run(d0, ops);
    var earliest := d.startTime + Duration(LastCommand(d.trace).repeat);
    var elapse: nat := if d.clock >= earliest then 0 else earliest - d.clock;
    assert FetchGoesOut(d, elapse);
  }

  // ----- single shot and periodic measurements -----

  predicate NoSentStart(ops: seq<Op>) { forall i :: 0 <= i < |ops| ==> !(ops[i].Start? && ops[i].sent) }

  predicate FetchesBeyond(trace: seq<BusEvent>, n: nat) { exists i :: n <= i < |trace| && IsFetch(trace[i]) }

  /** Some operations without a successful start among them let a fetch out. */
  ghost predicate FetchableAgain(d: Driver)
    requires d.startTime <= d.clock
  {
    exists ops :: NoSentStart(ops) && FetchesBeyond(Run(d, ops).trace, |d.trace|)
  }

  /** A driver that is not started lets no fetch out until a start succeeds. */
  lemma {:induction false} NoFetchUntilStart(d: Driver, ops: seq<Op>)
    requires d.startTime <= d.clock && !d.started && NoSentStart(ops)
    ensures !Run(d, ops).started && |Run(d, ops).trace| >= |d.trace| && !FetchesBeyond(Run(d, ops).trace, |d.trace|)
    decreases |ops|
  {
    if ops != [] {
      var n := |ops| - 1;
      NoFetchUntilStart(d, ops[..n]);
      var s := Run(d, ops[..n]);
      var e := Emits(s, ops[n]);
      if e.Some? {
        assert forall i :: 0 <= i < |s.trace| ==> (s.trace + [e.value])[i] == s.trace[i];
      }
    }
  }

  lemma NextFetch(d: Driver, elapse: nat)
    requires d.startTime <= d.clock && FetchGoesOut(d, elapse)
    ensures FetchableAgain(d)
  {
    var op := Op.Fetch(None, elapse);
    RunAppend(d, [], op);
    var r := Run(d, [] + [op]);
    var e := Emits(d, op);
    assert IsFetch(r.trace[|d.trace|]);
    assert NoSentStart([] + [op]) && FetchesBeyond(r.trace, |d.trace|);
  }

  /**
   * In every run, a measurement that has been fetched can be fetched again before the next successful start
   * if and only if the last start command, sent or not, asked for a periodic one. So the measurement that was
   * started at k is treated by its own mode exactly when that command agrees with it on single shot.
   */
  lemma {:induction false} SecondFetchIffLastAskedPeriodic(d0: Driver, ops: seq<Op>, k: int, reply: seq<Byte>,
                                                           elapse: nat)
    requires d0.trace == [] && !d0.started && d0.startTime <= d0.clock
    requires LiveStart(Run(d0, ops), k) && FetchGoesOut(Run(d0, ops), elapse)
    ensures var d := Run(d0, ops);
            var again := FetchableAgain(Apply(d, Op.Fetch(Some(reply), elapse)));
            && (again <==> LastCommand(d.trace).mode != SingleShot)
            && ((again <==> d.trace[k].mode != SingleShot)
                <==> (LastCommand(d.trace).mode == SingleShot <==> d.trace[k].mode == SingleShot))
  {
    FetchesAreJustified(d0, ops);
    var d := Run(d0, ops);
    LiveInTrace(d, k);
    hide Run, EveryFetchJustified, LastCommand, LiveStart, NoSentStart, FetchesBeyond;
    var r := Apply(d, Op.Fetch(Some(reply), elapse));
    if r.started {
      assert FetchGoesOut(r, 0);
      NextFetch(r, 0);
    } else {
      forall more | NoSentStart(more) ensures !FetchesBeyond(Run(r, more).trace, |r.trace|) {
        NoFetchUntilStart(r, more);
      }
    }
  }

  /**
   * In every run a successful start lies between a fetch before which single shot was last asked for and any
   * later fetch, even if a checksum failed.
   */
  lemma {:induction false} StartBetweenSingleShots(d: Driver, ops: seq<Op>, i: int, j: int)
    requires d.trace == [] && !d.started && d.startTime <= d.clock
    requires var trace := Run(d, ops).trace;
             && 0 <= i < j < |trace| && trace[i].Fetched? && IsFetch(trace[j])
             && LastCommand(trace[..i]).mode == SingleShot
    ensures exists k :: i < k < j && Run(d, ops).trace[k].Started?
  {
    FetchesAreJustified(d, ops);
    var trace := Run(d, ops).trace;
    var k :| 0 <= k < j && Justifies(trace, k, j);
    JustifiedAfter(trace, k, i, j);
    hide *;
  }

  lemma JustifiedAfter(trace: seq<BusEvent>, k: int, i: int, j: int)
    requires 0 <= k < j < |trace| && IsFetch(trace[j]) && Justifies(trace, k, j)
    requires 0 <= i < j && trace[i].Fetched? && LastCommand(trace[..i]).mode == SingleShot
    ensures i < k && trace[k].Started?
  {
    hide LastCommand, EndedBetween, StartedBetween, FetchedBetween;
  }

  // ----- runs in which a start command fails to be sent -----

  /** A start command that fails to be sent shortens the wait: its repeatability is already in force. */
  lemma FailedStartShortensWait(d: Driver, reply: seq<Byte>) returns (ops: seq<Op>)
    requires d.startTime <= d.clock
    ensures Run(d, ops).trace
            == d.trace + [Started(Periodic1, High, d.clock)] + [StartFailed(Periodic1, Low)] + [Fetched(d.clock + 4000)]
  {
    var a, b := Op.Start(Periodic1, High, true, 0), Op.Start(Periodic1, Low, false, 0);
    var c := Op.Fetch(Some(reply), 4000);
    ops := [] + [a] + [b] + [c];
    RunThree(d, a, b, c);
    hide Run;
  }

  /** A single-shot measurement is fetched twice: the periodic mode that was never sent is already in force. */
  lemma FailedStartRepeatsSingleShot(d: Driver, reply: seq<Byte>) returns (ops: seq<Op>)
    requires d.startTime <= d.clock
    ensures Run(d, ops).trace
            == d.trace + [Started(SingleShot, High, d.clock)] + [StartFailed(Periodic1, High)]
               + [Fetched(d.clock + 15000)] + [Fetched(d.clock + 15000)]
  {
    var a, b := Op.Start(SingleShot, High, true, 0), Op.Start(Periodic1, High, false, 0);
    var c, e := Op.Fetch(Some(reply), 15000), Op.Fetch(Some(reply), 0);
    var three := [] + [a] + [b] + [c];
    ops := three + [e];
    RunThree(d, a, b, c);
    RunAppend(d, three, e);
    hide Run;
  }

  /** A periodic measurement is over after one fetch, although nothing stopped it: the sensor goes on measuring. */
  lemma FailedStartEndsPeriodic(d: Driver, reply: seq<Byte>) returns (ops: seq<Op>)
    requires d.startTime <= d.clock
    ensures Run(d, ops).trace
            == d.trace + [Started(Periodic1, High, d.clock)] + [StartFailed(SingleShot, High)]
               + [Fetched(d.clock + 15000)]
    ensures RefusesFetches(Run(d, ops))
  {
    var a, b := Op.Start(Periodic1, High, true, 0), Op.Start(SingleShot, High, false, 0);
    var c := Op.Fetch(Some(reply), 15000);
    ops := [] + [a] + [b] + [c];
    RunThree(d, a, b, c);
    hide Run;
  }

  lemma {:induction false} RunThree(d: Driver, a: Op, b: Op, c: Op)
    requires d.startTime <= d.clock
    ensures Run(d, [] + [a] + [b] + [c]) == Apply(Apply(Apply(d, a), b), c)
  {
    hide *;
    RunAppend(d, [], a);
    RunAppend(d, [] + [a], b);
    RunAppend(d, [] + [a] + [b], c);
  }

  lemma {:induction false} RunAppend(d: Driver, ops: seq<Op>, op: Op)
    requires d.startTime <= d.clock
    ensures Run(d, []) == d && Run(d, ops + [op]) == Apply(Run(d, ops), op)
  {
    assert (ops + [op])[..|ops|] == ops;
  }

  // ----- the driver -----

  class Device {
    var mode: Mode
    var repeat: Repeat
    var startTime: nat
    var started: bool
    var first: bool
    var clock: nat
    ghost var trace: seq<BusEvent>

    ghost function Value(): Driver
      reads this
    {
      Driver(mode, repeat, startTime, started, first, clock, trace)
    }

    /** Every fetch so far was justified, and a started driver stands for a live measurement. */
    ghost predicate Valid()
      reads this
    {
      Inv(Value())
    }

    constructor (now: nat)
      ensures Valid() && !started && trace == [] && clock == now
    {
      mode, repeat, startTime, started, first, clock, trace := SingleShot, High, 0, false, false, now, [];
    }

    /** sht3x_init: the fields are reset whether or not the status command gets through. */
    method Init()
      requires Valid()
      modifies this
      ensures Valid() && Value() == Apply(old(Value()), Op.Init)
      ensures RefusesFetches(Value())
    {
      InvApply(Value(), Op.Init);
      mode, startTime, started, first := SingleShot, 0, false, false;
      trace := trace + [Cleared];
      hide Inv;
    }

    /**
     * start_measurement: mode and repeatability change even when the command is not sent. After a success
     * fetches are let out exactly when the duration has passed; a failure starts nothing.
     */
    method Start(mode: Mode, repeat: Repeat, sent: bool, elapse: nat) returns (err: Error)
      requires Valid()
      modifies this
      ensures Valid() && Value() == Apply(old(Value()), Op.Start(mode, repeat, sent, elapse))
      ensures err == if sent then Ok else BusError
      ensures err == Ok ==> forall wait: nat :: FetchGoesOut(Value(), wait) <==>
                wait >= match repeat case High => 15000 case Medium => 6000 case Low => 4000
      ensures err != Ok && RefusesFetches(old(Value())) ==> RefusesFetches(Value())
    {
      assert startTime <= clock;
      hide Inv, FetchGoesOut, RefusesFetches;
      InvApply(Value(), Op.Start(mode, repeat, sent, elapse));
      StartEffect(Value(), mode, repeat, sent, elapse);
      this.mode := mode;
      this.repeat := repeat;
      if !sent {
        trace := trace + [StartFailed(mode, repeat)];
        return BusError;
      }
      clock := clock + elapse;
      startTime := clock;
      started := true;
      first := true;
      trace := trace + [Started(mode, repeat, clock)];
      return Ok;
    }

    /**
     * get_raw_data: the flags are reset before the checksums are looked at, so a frame that fails them still
     * uses up a measurement that was last asked for as single shot.
     */
    method Fetch(reply: Option<seq<Byte>>, elapse: nat) returns (err: Error, raw: seq<Byte>)
      requires Valid() && (reply.Some? ==> |reply.value| == 6)
      modifies this
      ensures Valid() && Value() == Apply(old(Value()), Op.Fetch(reply, elapse))
      ensures err == if !old(started) || IsMeasuring(old(Value()), old(clock) + elapse) then InvalidState
                     else if reply.None? then BusError
                     else if ValidFrame(reply.value) then Ok else InvalidCrc
      ensures err == Ok ==> raw == reply.value
      ensures err == Ok || err == InvalidCrc ==>
                (RefusesFetches(Value()) <==> LastCommand(old(trace)).mode == SingleShot)
    {
      hide Register8, BitString, Remainder, Dividend, Bits8, LastCommand, LiveStart, EveryFetchJustified;
      InvApply(Value(), Op.Fetch(reply, elapse));
      raw := [];
      if !started {
        return InvalidState, [];
      }
      clock := clock + elapse;
      if started && first && clock - startTime < Duration(repeat) {
        return InvalidState, [];
      }
      if reply.None? {
        trace := trace + [FetchFailed(clock)];
        return BusError, [];
      }
      raw := reply.value;
      trace := trace + [Fetched(clock)];
      first := false;
      if mode == SingleShot {
        started := false;
      }
      FetchRefusedIffIdle(Value());
      hide RefusesFetches, FetchGoesOut;
      var crc := ComputeCrc8(raw[..2]);
      if crc != raw[2] {
        return InvalidCrc, raw;
      }
      crc := ComputeCrc8(raw[3..5]);
      if crc != raw[5] {
        return InvalidCrc, raw;
      }
      return Ok, raw;
    }

    /** sht3x_stop_periodic_measurement: after a success no fetch is let out; a failure changes nothing. */
    method Stop(sent: bool) returns (err: Error)
      requires Valid()
      modifies this
      ensures Valid() && Value() == Apply(old(Value()), Op.Stop(sent))
      ensures err == if sent then Ok else BusError
      ensures err == Ok ==> RefusesFetches(Value())
      ensures err != Ok ==> Value() == old(Value())
    {
      InvApply(Value(), Op.Stop(sent));
      hide Inv;
      if !sent {
        return BusError;
      }
      mode, startTime, started, first := SingleShot, 0, false, false;
      trace := trace + [Stopped];
      return Ok;
    }
  }

  lemma StartEffect(d: Driver, mode: Mode, repeat: Repeat, sent: bool, elapse: nat)
    requires d.startTime <= d.clock
    ensures var r := Apply(d, Op.Start(mode, repeat, sent, elapse));
            if sent then forall wait: nat :: FetchGoesOut(r, wait) <==> wait >= Duration(repeat)
            else RefusesFetches(d) ==> RefusesFetches(r)
  {
    FetchRefusedIffIdle(d);
    FetchRefusedIffIdle(Apply(d, Op.Start(mode, repeat, sent, elapse)));
    hide RefusesFetches;
  }

  lemma FetchRefusedIffIdle(d: Driver)
    requires d.startTime <= d.clock
    ensures RefusesFetches(d) <==> !d.started
  {
    if d.started {
      assert FetchGoesOut(d, Duration(d.repeat));
    }
  }

  // ----- frames -----

  lemma FrameWords(f: seq<Byte>)
    requires |f| == 6
    ensures f[..3] == f[..2] + [f[2]] && f[3..] == f[3..5] + [f[5]]
    ensures f == f[..3] + f[3..]
  {
  }

  /** One word of a frame, its checksum included. */
  function FrameWord(f: seq<Byte>, second: bool): seq<Byte>
    requires |f| == 6
  {
    if second then f[3..] else f[..3]
  }

  /** A burst of up to 8 bits inside one of the two words of a valid frame makes it invalid. */
  lemma BurstInFrameRejected(f: seq<Byte>, f': seq<Byte>, second: bool, k: nat, n: nat)
    requires |f| == |f'| == 6 && ValidFrame(f) && FrameWord(f, !second) == FrameWord(f', !second)
    requires n <= 8 && DifferWithin(BitString(FrameWord(f, second)), BitString(FrameWord(f', second)), k, n)
    ensures ValidFrame(f') <==> f == f'
  {
    hide Register8, BitString, DifferWithin;
    FrameWords(f);
    FrameWords(f');
    if second {
      WordDetectsBurst(f[3..5], f[5], f'[3..5], f'[5], k, n);
      SameWord(f[..2], f[2], f'[..2], f'[2]);
    } else {
      WordDetectsBurst(f[..2], f[2], f'[..2], f'[2], k, n);
      SameWord(f[3..5], f[5], f'[3..5], f'[5]);
    }
  }

  lemma SameWord(a: seq<Byte>, c: Byte, a': seq<Byte>, c': Byte)
    requires a + [c] == a' + [c'] && |a| == |a'|
    ensures a == a' && c == c'
  {
    assert (a + [c])[|a|] == c && (a' + [c'])[|a|] == c';
    assert a == (a + [c])[..|a|] && a' == (a' + [c'])[..|a|];
  }
}
