/** Archive runs over half-open windows, and the checkpoint that carries them from run to run. */
module Archive {
  import opened Wrappers

  datatype Dataset = Raw | Historized | Rejected

  const VALID_DATASETS: seq<Dataset> := [Raw, Historized, Rejected]

  const DAY: int := 86400

  datatype Error = EmptySelection | UnknownDataset | DatapumpNeedsOneDataset | MissingRetention
                 | NoStart | NoExecutor | StateStore

  // ----- selection -----

  /** One item of the comma-separated selection, stripped and in lower case. */
  datatype Item = Blank | Name(dataset: Dataset) | Unknown

  function Canonical(selected: set<Dataset>): (r: seq<Dataset>)
    ensures forall d :: d in r <==> d in selected
    ensures forall i, j :: 0 <= i < j < |r| ==> r[i] != r[j]
  {
    var a := if Raw in selected then [Raw] else [];
    var b := if Historized in selected then a + [Historized] else a;
    var c := if Rejected in selected then b + [Rejected] else b;
    assert forall d: Dataset :: d in a <==> d == Raw && d in selected;
    assert forall d: Dataset :: d in b <==> d != Rejected && d in selected;
    c
  }

  /** parse_datasets: no selection means every dataset; otherwise the named ones, in the fixed order. */
  function ParseDatasets(value: Option<seq<Item>>): Result<seq<Dataset>, Error> {
    if value.None? then Success(VALID_DATASETS)
    else
      var items := set i | i in value.value && i != Blank;
      if items == {} then Failure(EmptySelection)
      else if Unknown in items then Failure(UnknownDataset)
      else Success(Canonical(set d: Dataset | d in {Raw, Historized, Rejected} && Name(d) in items))
  }

  /** The named datasets, each once and in the fixed order; a blank or an unknown name is refused. */
  lemma SelectionExactly(value: Option<seq<Item>>)
    ensures var r := ParseDatasets(value);
            && (value.None? ==> r == Success([Raw, Historized, Rejected]))
            && (value.Some? ==>
                  && (r == Failure(EmptySelection) <==> forall i :: i in value.value ==> i == Blank)
                  && (r == Failure(UnknownDataset) <==> Unknown in value.value)
                  && (r.Success? ==> forall d :: d in r.value <==> Name(d) in value.value)
                  && (r.Success? ==> InFixedOrder(r.value)))
  {
    if value.Some? {
      forall selected ensures InFixedOrder(Canonical(selected)) {
        CanonicalOrder(selected);
      }
      hide Canonical, InFixedOrder;
      var items := set i | i in value.value && i != Blank;
      assert Unknown in items <==> Unknown in value.value;
      assert forall d: Dataset :: Name(d) in items <==> Name(d) in value.value;
      var named := set d: Dataset | d in {Raw, Historized, Rejected} && Name(d) in items;
      forall d: Dataset | Name(d) in items ensures d in named {
        assert d.Raw? || d.Historized? || d.Rejected?;
      }
    }
  }

  lemma CanonicalOrder(selected: set<Dataset>)
    ensures InFixedOrder(Canonical(selected))
  {
  }

  function Rank(d: Dataset): nat { match d case Raw => 0 case Historized => 1 case Rejected => 2 }

  ghost predicate InFixedOrder(s: seq<Dataset>) {
    forall i, j :: 0 <= i < j < |s| ==> Rank(s[i]) < Rank(s[j])
  }

  // ----- planning -----

  datatype Window = Window(start: int, end: int)

  /** The rows a dataset query selects. */
  predicate Selects(w: Window, time: int) { w.start <= time < w.end }

  datatype Request = Request(
    datasets: Option<seq<Item>>, datapump: bool, dryRun: bool,
    start: Option<int>, end: Option<int>,
    now: int, retention: map<Dataset, int>,
    checkpointLoads: bool, succeeds: set<Dataset>, manifestStored: bool, checkpointStored: bool)

  /** How a service is configured: the bootstrap lookback, and whether it has an executor and a state store. */
  datatype Setup = Setup(bootstrap: Option<int>, executor: bool, stateStore: bool)

  /** The window of one dataset: explicit times first, then the checkpoint, then the bootstrap lookback. */
  function WindowFor(now: int, retention: int, last: Option<int>, bootstrap: Option<int>,
                     start: Option<int>, end: Option<int>): Result<Window, Error> {
    var boundary := now - retention * DAY;
    var windowEnd := if end.Some? then end.value else boundary;
    if start.Some? then Success(Window(start.value, windowEnd))
    else if last.Some? then Success(Window(last.value - retention * DAY, windowEnd))
    else if bootstrap.Some? then Success(Window(boundary - bootstrap.value * DAY, windowEnd))
    else Failure(NoStart)
  }

  ghost predicate IsPlan(plan: map<Dataset, Window>, selected: seq<Dataset>, r: Request,
                         last: Option<int>, bootstrap: Option<int>) {
    && (forall d :: d in plan <==> d in selected)
    && forall d :: d in selected ==>
         d in r.retention && WindowFor(r.now, r.retention[d], last, bootstrap, r.start, r.end) == Success(plan[d])
  }

  /**
   * With explicit start and end a planned window selects a row exactly when its time lies between them, whatever
   * checkpoint, retention and bootstrap there are.
   */
  lemma ExplicitTimesSelect(plan: map<Dataset, Window>, selected: seq<Dataset>, r: Request, last: Option<int>,
                            bootstrap: Option<int>, d: Dataset, time: int)
    requires IsPlan(plan, selected, r, last, bootstrap) && d in selected && r.start.Some? && r.end.Some?
    ensures d in plan && (Selects(plan[d], time) <==> r.start.value <= time < r.end.value)
  {
  }

  /** With an explicit start, plans from any two checkpoints and bootstraps are the same. */
  lemma {:induction false} ExplicitStartOverrules(plan: map<Dataset, Window>, plan': map<Dataset, Window>,
                                                  selected: seq<Dataset>, r: Request,
                                                  last: Option<int>, last': Option<int>,
                                                  bootstrap: Option<int>, bootstrap': Option<int>)
    requires IsPlan(plan, selected, r, last, bootstrap) && IsPlan(plan', selected, r, last', bootstrap')
    requires r.start.Some?
    ensures plan == plan' && forall d :: d in plan ==> plan[d].start == r.start.value
  {
  }

  /**
   * Without one, the window starts a retention before the checkpoint, and the bootstrap does not matter; only
   * without a checkpoint it starts the bootstrap before the default end. The default end is a retention ago.
   */
  lemma DefaultTimes(plan: map<Dataset, Window>, selected: seq<Dataset>, r: Request, last: Option<int>,
                     bootstrap: Option<int>, d: Dataset)
    requires IsPlan(plan, selected, r, last, bootstrap) && d in selected
    ensures d in plan && d in r.retention
    ensures r.end.None? ==> r.now - plan[d].end == r.retention[d] * DAY
    ensures r.end.Some? ==> plan[d].end == r.end.value
    ensures r.start.None? && last.Some? ==> last.value - plan[d].start == r.retention[d] * DAY
    ensures r.start.None? && last.None? ==>
              bootstrap.Some? && r.now - plan[d].start == (r.retention[d] + bootstrap.value) * DAY
  {
  }

  /** build_archive_plan. */
  method BuildPlan(selected: seq<Dataset>, r: Request, last: Option<int>, bootstrap: Option<int>)
    returns (plan: Result<map<Dataset, Window>, Error>)
    requires forall d :: d in selected ==> d in r.retention
    ensures plan.Success? ==> IsPlan(plan.value, selected, r, last, bootstrap)
    ensures plan.Failure? ==> plan.error == NoStart
    ensures plan.Failure? <==> selected != [] && r.start.None? && last.None? && bootstrap.None?
  {
    var windows: map<Dataset, Window> := map[];
    for i := 0 to |selected|
      invariant i > 0 ==> r.start.Some? || last.Some? || bootstrap.Some?
      invariant forall d :: d in windows <==> d in selected[..i]
      invariant forall d :: d in windows ==>
                  WindowFor(r.now, r.retention[d], last, bootstrap, r.start, r.end) == Success(windows[d])
    {
      var d := selected[i];
      var retention := r.retention[d];
      var boundary := r.now - retention * DAY;
      var windowEnd := if r.end.Some? then r.end.value else boundary;
      var windowStart: int;
      if r.start.Some? {
        windowStart := r.start.value;
      } else if last.Some? {
        windowStart := last.value - retention * DAY;
      } else if bootstrap.Some? {
        windowStart := boundary - bootstrap.value * DAY;
      } else {
        return Failure(NoStart);
      }
      windows := windows[d := Window(windowStart, windowEnd)];
      assert selected[..i + 1] == selected[..i] + [d];
    }
    assert selected[..|selected|] == selected;
    return Success(windows);
  }

  // ----- one run -----

  /** What a run returns: the planned windows, and whether it reports that the checkpoint advanced. */
  datatype RunResult = RunResult(windows: map<Dataset, Window>, advanced: bool, error: Option<Error>)

  function Selection(r: Request): Result<seq<Dataset>, Error> {
    var s := ParseDatasets(r.datasets);
    if s.Failure? then s
    else if r.datapump && |s.value| != 1 then Failure(DatapumpNeedsOneDataset)
    else s
  }

  /** Every dataset is exported, and a state store, if there is one, answers every request. */
  predicate Succeeds(r: Request, last: Option<int>, setup: Setup) {
    var s := Selection(r);
    && s.Success? && (forall d :: d in s.value ==> d in r.retention)
    && (r.start.Some? || last.Some? || setup.bootstrap.Some?)
    && !r.dryRun && setup.executor
    && (forall d :: d in s.value ==> d in r.succeeds)
    && (setup.stateStore ==> r.checkpointLoads && r.manifestStored && r.checkpointStored)
  }

  /** Whether the run gets as far as writing the checkpoint. */
  predicate Advances(r: Request, last: Option<int>, setup: Setup) {
    setup.stateStore && Succeeds(r, last, setup)
  }

  /** The error that ends the run, the first one in the order in which the run meets them. */
  function ErrorOf(r: Request, last: Option<int>, setup: Setup): Option<Error> {
    var s := Selection(r);
    if s.Failure? then Some(s.error)
    else if setup.stateStore && !r.checkpointLoads then Some(StateStore)
    else if exists d | d in s.value :: d !in r.retention then Some(MissingRetention)
    else if r.start.None? && last.None? && setup.bootstrap.None? then Some(NoStart)
    else if r.dryRun then None
    else if !setup.executor then Some(NoExecutor)
    else if !setup.stateStore then None
    else if !r.manifestStored then Some(StateStore)
    else if (forall d | d in s.value :: d in r.succeeds) && !r.checkpointStored then Some(StateStore)
    else None
  }

  /** A run that ends without an error reports an advance unless it was dry or a dataset failed; no other run does. */
  lemma SucceedsIffNoError(r: Request, last: Option<int>, setup: Setup)
    ensures Succeeds(r, last, setup) <==>
              ErrorOf(r, last, setup).None? && !r.dryRun
              && forall d :: d in Selection(r).value ==> d in r.succeeds
  {
    hide Selection;
  }

  /** The steps of a run that can end it, in their order. */
  datatype Stage = Select | LoadCheckpoint | Retain | Plan | Execute | StoreManifest | StoreCheckpoint

  function StageRank(s: Stage): nat {
    match s
    case Select => 0 case LoadCheckpoint => 1 case Retain => 2 case Plan => 3
    case Execute => 4 case StoreManifest => 5 case StoreCheckpoint => 6
  }

  /** The step fails if the run comes to it. A dry run executes and stores nothing. */
  ghost predicate Blocks(s: Stage, r: Request, last: Option<int>, setup: Setup) {
    match s
    case Select => Selection(r).Failure?
    case LoadCheckpoint => setup.stateStore && !r.checkpointLoads
    case Retain => Selection(r).Success? && exists d :: d in Selection(r).value && d !in r.retention
    case Plan => r.start.None? && last.None? && setup.bootstrap.None?
    case Execute => !r.dryRun && !setup.executor
    case StoreManifest => !r.dryRun && setup.stateStore && !r.manifestStored
    case StoreCheckpoint =>
      && !r.dryRun && setup.stateStore && !r.checkpointStored
      && Selection(r).Success? && forall d :: d in Selection(r).value ==> d in r.succeeds
  }

  function ErrorAt(s: Stage, r: Request): Option<Error> {
    match s
    case Select => if Selection(r).Failure? then Some(Selection(r).error) else None
    case Retain => Some(MissingRetention)
    case Plan => Some(NoStart)
    case Execute => Some(NoExecutor)
    case _ => Some(StateStore)
  }

  /** A run ends with the error of a step that blocks it and before which none does, and without one if none does. */
  lemma FirstBlockingStep(r: Request, last: Option<int>, setup: Setup, s: Stage)
    ensures Blocks(s, r, last, setup)
            && (forall t :: StageRank(t) < StageRank(s) ==> !Blocks(t, r, last, setup))
            ==> ErrorOf(r, last, setup) == ErrorAt(s, r)
    ensures ErrorOf(r, last, setup).None? <==> forall t :: !Blocks(t, r, last, setup)
  {
    hide Selection;
    assert StageRank(Select) == 0 && StageRank(LoadCheckpoint) == 1 && StageRank(Retain) == 2;
    assert StageRank(Plan) == 3 && StageRank(Execute) == 4 && StageRank(StoreManifest) == 5;
    var e := ErrorOf(r, last, setup);
    if Blocks(Select, r, last, setup) {
    } else if Blocks(LoadCheckpoint, r, last, setup) {
    } else if Blocks(Retain, r, last, setup) {
    } else if Blocks(Plan, r, last, setup) {
    } else if Blocks(Execute, r, last, setup) {
    } else if Blocks(StoreManifest, r, last, setup) {
    } else if Blocks(StoreCheckpoint, r, last, setup) {
    } else {
      assert e.None?;
    }
  }

  class ArchiveService {
    const setup: Setup
    var checkpoint: Option<int>

    constructor (setup: Setup, checkpoint: Option<int>)
      ensures this.setup == setup && this.checkpoint == checkpoint
    {
      this.setup, this.checkpoint := setup, checkpoint;
    }

    /** The checkpoint that a plan starts from: none without a state store. */
    function Last(): Option<int>
      reads this
    {
      if setup.stateStore then checkpoint else None
    }

    /** should_advance_checkpoint: some status, and every status a success. */
    static method ShouldAdvance(statuses: map<Dataset, bool>) returns (advance: bool)
      ensures advance <==> statuses != map[] && forall d :: d in statuses ==> statuses[d]
    {
      if |statuses| == 0 {
        return false;
      }
      advance := forall d | d in statuses :: statuses[d];
    }

    /**
     * plan and run. The stored checkpoint moves to the time of the run, or not at all; without a state store
     * a run that succeeds reports an advance that nothing keeps.
     */
    method Run(r: Request) returns (result: RunResult)
      modifies this
      ensures result.advanced <==> Succeeds(r, old(Last()), setup)
      ensures checkpoint == if Advances(r, old(Last()), setup) then Some(r.now) else old(checkpoint)
      ensures result.advanced ==> IsPlan(result.windows, Selection(r).value, r, old(Last()), setup.bootstrap)
      ensures result.error == ErrorOf(r, old(Last()), setup)
    {
      hide ParseDatasets, WindowFor, IsPlan;
      result := RunResult(map[], false, None);
      var selected := ParseDatasets(r.datasets);
      if selected.Failure? {
        return result.(error := Some(selected.error));
      }
      if r.datapump && |selected.value| != 1 {
        return result.(error := Some(DatapumpNeedsOneDataset));
      }
      SelectionNotEmpty(r);
      if setup.stateStore && !r.checkpointLoads {
        return result.(error := Some(StateStore));
      }
      if exists d | d in selected.value :: d !in r.retention {
        return result.(error := Some(MissingRetention));
      }
      var plan := BuildPlan(selected.value, r, Last(), setup.bootstrap);
      if plan.Failure? {
        return result.(error := Some(NoStart));
      }
      result := result.(windows := plan.value);
      var statuses: map<Dataset, bool> := map[];
      for i := 0 to |selected.value|
        invariant checkpoint == old(checkpoint)
        invariant !r.dryRun && i > 0 ==> setup.executor
        invariant forall d :: d in statuses <==> d in selected.value[..i]
        invariant forall d :: d in statuses ==> statuses[d] == (!r.dryRun && d in r.succeeds)
      {
        var d := selected.value[i];
        assert selected.value[..i + 1] == selected.value[..i] + [d];
        if r.dryRun {
          statuses := statuses[d := false];
          continue;
        }
        if !setup.executor {
          return result.(error := Some(NoExecutor));
        }
        statuses := statuses[d := d in r.succeeds];
      }
      assert selected.value[..|selected.value|] == selected.value;
      assert selected.value[0] in statuses;
      if r.dryRun {
        return;
      }
      var advance := ShouldAdvance(statuses);
      if setup.stateStore {
        if !r.manifestStored {
          return result.(error := Some(StateStore));
        }
        if advance {
          if !r.checkpointStored {
            return result.(error := Some(StateStore));
          }
          checkpoint := Some(r.now);
        }
      }
      result := result.(advanced := advance);
    }
  }

  /** An accepted selection is not empty, and one dataset for datapump; one of several is refused for it. */
  lemma SelectionNotEmpty(r: Request)
    ensures Selection(r).Success? ==> Selection(r).value != []
    ensures Selection(r).Success? && r.datapump ==> exists d :: Selection(r) == Success([d])
    ensures ParseDatasets(r.datasets).Failure? || !r.datapump ==> Selection(r) == ParseDatasets(r.datasets)
    ensures ParseDatasets(r.datasets).Success? && Selection(r).Failure? ==>
              Selection(r).error == DatapumpNeedsOneDataset && |ParseDatasets(r.datasets).value| > 1
  {
    var s := ParseDatasets(r.datasets);
    if s.Success? && |s.value| == 1 {
      assert s.value == [s.value[0]];
    }
    if r.datasets.Some? && s.Success? {
      var items := set i | i in r.datasets.value && i != Blank;
      var i :| i in items;
      assert i.Name? && Name(i.dataset) in items;
      var named := set d: Dataset | d in {Raw, Historized, Rejected} && Name(d) in items;
      assert i.dataset.Raw? || i.dataset.Historized? || i.dataset.Rejected?;
      assert i == Name(i.dataset) && i.dataset in named;
      assert s.value == Canonical(named);
    }
  }

  // ----- histories -----

  /**
   * The checkpoint; and for one dataset the windows and retentions of the runs that advanced it, how far the
   * checkpoint had drifted on before each since the one before, and the time of the latest.
   */
  datatype History = History(checkpoint: Option<int>, windows: seq<Window>, retentions: seq<int>,
                             drifts: seq<int>, latest: Option<int>)

  function Start(checkpoint: Option<int>): History { History(checkpoint, [], [], [], None) }

  /** What runs without the dataset have added to the checkpoint since the last one with it. */
  function Drift(h: History): int {
    if h.latest.Some? && h.checkpoint.Some? then h.checkpoint.value - h.latest.value else 0
  }

  /** What a run does to the checkpoint and, if it advances, which window of the dataset it covers. */
  function After(h: History, r: Request, setup: Setup, d: Dataset): History {
    if !Advances(r, h.checkpoint, setup) then h
    else if d !in Selection(r).value then h.(checkpoint := Some(r.now))
    else
      History(Some(r.now),
              h.windows + [WindowFor(r.now, r.retention[d], h.checkpoint, setup.bootstrap, r.start, r.end).value],
              h.retentions + [r.retention[d]], h.drifts + [Drift(h)], Some(r.now))
  }

  function Runs(h: History, rs: seq<Request>, setup: Setup, d: Dataset): History {
    if rs == [] then h else After(Runs(h, rs[..|rs| - 1], setup, d), rs[|rs| - 1], setup, d)
  }

  /** The windows that an advancing run reports are the ones the history records. */
  lemma ReportedWindowsAreRecorded(h: History, r: Request, setup: Setup, d: Dataset, windows: map<Dataset, Window>)
    requires Advances(r, h.checkpoint, setup)
    requires IsPlan(windows, Selection(r).value, r, h.checkpoint, setup.bootstrap)
    ensures After(h, r, setup, d).checkpoint == Some(r.now)
    ensures After(h, r, setup, d).windows == if d in windows then h.windows + [windows[d]] else h.windows
  {
  }

  /** The runs of a history that write the checkpoint. */
  function AdvancingOnly(h: History, rs: seq<Request>, setup: Setup, d: Dataset): seq<Request> {
    if rs == [] then []
    else
      var front, last := rs[..|rs| - 1], rs[|rs| - 1];
      AdvancingOnly(h, front, setup, d)
      + if Advances(last, Runs(h, front, setup, d).checkpoint, setup) then [last] else []
  }

  /** Failed and dry runs may be erased from any history: what the others plan and archive is the same. */
  lemma {:induction false} FailedAndDryRunsCanBeErased(h: History, rs: seq<Request>, setup: Setup, d: Dataset)
    ensures var kept := AdvancingOnly(h, rs, setup, d);
            && Runs(h, kept, setup, d) == Runs(h, rs, setup, d)
            && forall i :: 0 <= i < |kept| ==>
                 !kept[i].dryRun && Advances(kept[i], Runs(h, kept[..i], setup, d).checkpoint, setup)
    decreases |rs|
  {
    if rs != [] {
      var front, last := rs[..|rs| - 1], rs[|rs| - 1];
      FailedAndDryRunsCanBeErased(h, front, setup, d);
      var before, kept := AdvancingOnly(h, front, setup, d), AdvancingOnly(h, rs, setup, d);
      assert Advances(last, Runs(h, front, setup, d).checkpoint, setup) ==> !last.dryRun;
      hide Advances, After;
      if kept != before {
        assert kept == before + [last] && kept[..|kept| - 1] == before;
        forall i | 0 <= i < |kept|
          ensures !kept[i].dryRun && Advances(kept[i], Runs(h, kept[..i], setup, d).checkpoint, setup)
        {
          assert kept[..i] == before[..i];
        }
      } else {
        assert After(Runs(h, front, setup, d), last, setup, d) == Runs(h, front, setup, d) by {
          NotAdvancing(Runs(h, front, setup, d), last, setup, d);
        }
      }
    }
  }

  lemma NotAdvancing(h: History, r: Request, setup: Setup, d: Dataset)
    ensures !Advances(r, h.checkpoint, setup) ==> After(h, r, setup, d) == h
  {
  }

  /** If the run selects the dataset, its times are the default ones. */
  predicate Default(r: Request, d: Dataset) {
    Selection(r).Success? && d in Selection(r).value ==> r.start.None? && r.end.None?
  }

  /** Every run that advances the checkpoint is such a run; failed and dry runs may be anything. */
  ghost predicate AdvancingRunsDefault(h: History, rs: seq<Request>, setup: Setup, d: Dataset) {
    forall i :: 0 <= i < |rs| && Advances(rs[i], Runs(h, rs[..i], setup, d).checkpoint, setup) ==> Default(rs[i], d)
  }

  /** Every run that advances the checkpoint selects the dataset. */
  ghost predicate AlwaysSelected(h: History, rs: seq<Request>, setup: Setup, d: Dataset) {
    forall i :: 0 <= i < |rs| && Advances(rs[i], Runs(h, rs[..i], setup, d).checkpoint, setup) ==>
      d in Selection(rs[i]).value
  }

  /** Clocks never go back, and no run is earlier than the time at hand. */
  ghost predicate Monotone(from: int, rs: seq<Request>) {
    && (forall i :: 0 <= i < |rs| ==> from <= rs[i].now)
    && (forall i, j :: 0 <= i < j < |rs| ==> rs[i].now <= rs[j].now)
  }

  /** What the theorems below ask of a history: default times, and a clock that never goes back. */
  ghost predicate Regular(checkpoint: Option<int>, rs: seq<Request>, setup: Setup, d: Dataset, from: int) {
    && (checkpoint.Some? ==> checkpoint.value <= from) && Monotone(from, rs)
    && (setup.bootstrap.Some? ==> setup.bootstrap.value >= 0)
    && AdvancingRunsDefault(Start(checkpoint), rs, setup, d)
  }

  // ----- windows and retentions -----

  ghost predicate NotInverted(ws: seq<Window>) {
    forall k :: 0 <= k < |ws| ==> ws[k].start <= ws[k].end
  }

  /** Consecutive windows meet exactly, and none is inverted. */
  ghost predicate Tiling(ws: seq<Window>) {
    NotInverted(ws) && forall k :: 0 < k < |ws| ==> ws[k - 1].end == ws[k].start
  }

  /**
   * From window to window the start moves away from the last end by what the checkpoint has drifted on and by
   * what the retention has lost.
   */
  ghost predicate Shifted(h: History) {
    && |h.windows| == |h.retentions| == |h.drifts|
    && forall k :: 0 < k < |h.windows| ==>
         h.windows[k].start - h.windows[k - 1].end == h.drifts[k] + (h.retentions[k - 1] - h.retentions[k]) * DAY
  }

  ghost predicate Linked(h: History, upTo: int) {
    && NotInverted(h.windows) && Shifted(h) && (forall k :: 0 <= k < |h.drifts| ==> h.drifts[k] >= 0)
    && (h.windows == [] ==> h.latest.None?)
    && (h.windows != [] ==>
          && h.latest == Some(h.windows[|h.windows| - 1].end + h.retentions[|h.windows| - 1] * DAY)
          && h.checkpoint.Some? && h.latest.value <= h.checkpoint.value)
    && (h.checkpoint.Some? ==> h.checkpoint.value <= upTo)
  }

  /** The window of a run with default times: it ends a retention before now, and begins one before the checkpoint. */
  lemma DefaultWindow(h: History, r: Request, setup: Setup, d: Dataset, upTo: int) returns (w: Window)
    requires Linked(h, upTo) && upTo <= r.now && Advances(r, h.checkpoint, setup)
    requires Default(r, d) && d in Selection(r).value
    requires setup.bootstrap.Some? ==> setup.bootstrap.value >= 0
    ensures After(h, r, setup, d) == History(Some(r.now), h.windows + [w], h.retentions + [r.retention[d]],
                                             h.drifts + [Drift(h)], Some(r.now))
    ensures w.end == r.now - r.retention[d] * DAY && w.start <= w.end
    ensures h.checkpoint.Some? ==> w.start == h.checkpoint.value - r.retention[d] * DAY
  {
    hide Selection, Linked, Drift;
    w := WindowFor(r.now, r.retention[d], h.checkpoint, setup.bootstrap, r.start, r.end).value;
    assert h.checkpoint.Some? ==> h.checkpoint.value <= upTo by { CheckpointInPast(h, upTo); }
    if h.checkpoint.None? {
      assert setup.bootstrap.value * DAY >= 0;
    }
  }

  lemma CheckpointInPast(h: History, upTo: int)
    requires Linked(h, upTo)
    ensures h.checkpoint.Some? ==> h.checkpoint.value <= upTo
  {
  }

  lemma LinkedWindow(h: History, r: History, upTo: int, now: int, w: Window, q: int)
    requires Linked(h, upTo) && upTo <= now
    requires r == History(Some(now), h.windows + [w], h.retentions + [q], h.drifts + [Drift(h)], Some(now))
    requires w.end == now - q * DAY && w.start <= w.end
    requires h.checkpoint.Some? ==> w.start == h.checkpoint.value - q * DAY
    ensures Linked(r, now)
  {
  }

  lemma LinkedAfter(h: History, r: Request, setup: Setup, d: Dataset, upTo: int)
    requires Linked(h, upTo) && upTo <= r.now
    requires Advances(r, h.checkpoint, setup) ==> Default(r, d)
    requires setup.bootstrap.Some? ==> setup.bootstrap.value >= 0
    ensures Linked(After(h, r, setup, d), r.now)
  {
    if Advances(r, h.checkpoint, setup) {
      if d in Selection(r).value {
        hide *;
        var w := DefaultWindow(h, r, setup, d, upTo);
        LinkedWindow(h, After(h, r, setup, d), upTo, r.now, w, r.retention[d]);
      } else {
        hide Selection, Advances, Shifted, NotInverted;
      }
    } else {
      hide Advances, After, Shifted, NotInverted;
      NotAdvancing(h, r, setup, d);
    }
  }

  lemma {:induction false} DefaultPrefix(h: History, rs: seq<Request>, setup: Setup, d: Dataset)
    requires AdvancingRunsDefault(h, rs, setup, d) && rs != []
    ensures var front, last := rs[..|rs| - 1], rs[|rs| - 1];
            && AdvancingRunsDefault(h, front, setup, d)
            && (Advances(last, Runs(h, front, setup, d).checkpoint, setup) ==> Default(last, d))
  {
    hide Runs, Advances, Default;
    var front := rs[..|rs| - 1];
    forall i | 0 <= i < |front| ensures front[i] == rs[i] && front[..i] == rs[..i] {}
  }

  lemma {:induction false} SelectedPrefix(h: History, rs: seq<Request>, setup: Setup, d: Dataset)
    requires AlwaysSelected(h, rs, setup, d) && rs != []
    ensures var front, last := rs[..|rs| - 1], rs[|rs| - 1];
            && AlwaysSelected(h, front, setup, d)
            && (Advances(last, Runs(h, front, setup, d).checkpoint, setup) ==> d in Selection(last).value)
  {
    hide Runs, Selection;
    var front := rs[..|rs| - 1];
    forall i | 0 <= i < |front| ensures front[i] == rs[i] && front[..i] == rs[..i] {}
  }

  /** With the dataset in every advancing run the checkpoint never drifts on without it. */
  lemma {:induction false} NoDrift(checkpoint: Option<int>, rs: seq<Request>, setup: Setup, d: Dataset)
    requires AlwaysSelected(Start(checkpoint), rs, setup, d)
    ensures var h := Runs(Start(checkpoint), rs, setup, d);
            && (h.latest.Some? ==> h.checkpoint == h.latest)
            && forall k :: 0 <= k < |h.drifts| ==> h.drifts[k] == 0
    decreases |rs|
  {
    hide Advances, AlwaysSelected, Selection;
    if rs != [] {
      SelectedPrefix(Start(checkpoint), rs, setup, d);
      NoDrift(checkpoint, rs[..|rs| - 1], setup, d);
    }
  }

  lemma MonotonePrefix(from: int, rs: seq<Request>)
    requires Monotone(from, rs) && rs != []
    ensures var front, last := rs[..|rs| - 1], rs[|rs| - 1];
            Monotone(from, front) && (if front == [] then from else front[|front| - 1].now) <= last.now
  {
  }

  lemma {:induction false} RunsLinked(h: History, rs: seq<Request>, setup: Setup, d: Dataset, from: int)
    requires Linked(h, from) && Monotone(from, rs) && AdvancingRunsDefault(h, rs, setup, d)
    requires setup.bootstrap.Some? ==> setup.bootstrap.value >= 0
    ensures Linked(Runs(h, rs, setup, d), if rs == [] then from else rs[|rs| - 1].now)
    decreases |rs|
  {
    hide Advances, After, Default, Linked, AdvancingRunsDefault, Monotone;
    if rs != [] {
      var front, last := rs[..|rs| - 1], rs[|rs| - 1];
      DefaultPrefix(h, rs, setup, d);
      MonotonePrefix(from, rs);
      RunsLinked(h, front, setup, d, from);
      LinkedAfter(Runs(h, front, setup, d), last, setup, d, if front == [] then from else front[|front| - 1].now);
    }
  }

  lemma {:induction false} RegularLinked(checkpoint: Option<int>, rs: seq<Request>, setup: Setup, d: Dataset, from: int)
    requires Regular(checkpoint, rs, setup, d, from)
    ensures var h := Runs(Start(checkpoint), rs, setup, d);
            NotInverted(h.windows) && Shifted(h) && forall k :: 0 <= k < |h.drifts| ==> h.drifts[k] >= 0
  {
    hide Runs, AdvancingRunsDefault, Monotone;
    RunsLinked(Start(checkpoint), rs, setup, d, from);
  }

  /**
   * Between any two consecutive windows of a history rows are skipped exactly when the checkpoint drifted on by
   * more than the retention grew, and covered again exactly when by less, by just the difference. With the
   * dataset in every advancing run this means: exactly when the retention shrank, and when it grew.
   */
  lemma {:induction false} GapIffRetentionShrank(checkpoint: Option<int>, rs: seq<Request>, setup: Setup, d: Dataset,
                                                 from: int, k: nat)
    requires Regular(checkpoint, rs, setup, d, from)
    requires 0 < k < |Runs(Start(checkpoint), rs, setup, d).windows|
    ensures var h := Runs(Start(checkpoint), rs, setup, d);
            var ws, q := h.windows, h.retentions;
            && |q| == |h.drifts| == |ws| && h.drifts[k] >= 0
            && ws[k].start - ws[k - 1].end == h.drifts[k] + (q[k - 1] - q[k]) * DAY
            && (ws[k - 1].end < ws[k].start <==> h.drifts[k] > (q[k] - q[k - 1]) * DAY)
            && (ws[k].start < ws[k - 1].end <==> h.drifts[k] < (q[k] - q[k - 1]) * DAY)
    ensures AlwaysSelected(Start(checkpoint), rs, setup, d) ==>
              var h := Runs(Start(checkpoint), rs, setup, d);
              var ws, q := h.windows, h.retentions;
              && (ws[k - 1].end < ws[k].start <==> q[k] < q[k - 1])
              && (ws[k].start < ws[k - 1].end <==> q[k] > q[k - 1])
  {
    hide Runs, Regular, AlwaysSelected;
    RegularLinked(checkpoint, rs, setup, d, from);
    if AlwaysSelected(Start(checkpoint), rs, setup, d) {
      NoDrift(checkpoint, rs, setup, d);
    }
  }

  ghost predicate AllEqual(q: seq<int>) {
    forall i, j :: 0 <= i < j < |q| ==> q[i] == q[j]
  }

  lemma {:induction false} EqualSteps(q: seq<int>)
    requires forall k :: 0 < k < |q| ==> q[k - 1] == q[k]
    ensures AllEqual(q)
    decreases |q|
  {
    if |q| > 1 {
      var front := q[..|q| - 1];
      forall k | 0 < k < |front| ensures front[k - 1] == front[k] {
        assert q[k - 1] == q[k];
      }
      EqualSteps(front);
      assert q[|q| - 2] == q[|q| - 1];
      forall i, j | 0 <= i < j < |q| ensures q[i] == q[j] {
        assert front[i] == q[i] && front[|q| - 2] == q[|q| - 2];
      }
    }
  }

  lemma TilingIffEqualRetentions(h: History)
    requires NotInverted(h.windows) && Shifted(h) && forall k :: 0 <= k < |h.drifts| ==> h.drifts[k] == 0
    ensures Tiling(h.windows) <==> AllEqual(h.retentions)
  {
    var ws, retentions := h.windows, h.retentions;
    if Tiling(ws) {
      forall k | 0 < k < |retentions| ensures retentions[k - 1] == retentions[k] {
        assert ws[k].start - ws[k - 1].end == 0 && h.drifts[k] == 0;
      }
      EqualSteps(retentions);
    }
    if AllEqual(retentions) {
      forall k | 0 < k < |ws| ensures ws[k - 1].end == ws[k].start {
        assert retentions[k - 1] == retentions[k] && h.drifts[k] == 0;
      }
    }
  }

  /** Every drift of the checkpoint is made up by as much more retention. */
  ghost predicate DriftsMadeUp(h: History)
    requires |h.retentions| == |h.drifts|
  {
    forall k :: 0 < k < |h.drifts| ==> h.drifts[k] == (h.retentions[k] - h.retentions[k - 1]) * DAY
  }

  lemma ShiftedTiling(h: History)
    requires NotInverted(h.windows) && Shifted(h)
    ensures Tiling(h.windows) <==> DriftsMadeUp(h)
  {
    if Tiling(h.windows) {
      forall k | 0 < k < |h.drifts| ensures h.drifts[k] == (h.retentions[k] - h.retentions[k - 1]) * DAY {
        assert h.windows[k].start - h.windows[k - 1].end == 0;
      }
    }
  }

  /**
   * Over any history whose advancing runs use default times wherever they select the dataset, on a clock that
   * never goes back, the windows tile one interval if and only if before each of them the checkpoint had drifted
   * on, in runs without the dataset, by exactly what its retention had grown.
   */
  lemma {:induction false} TilingIffDriftsMadeUp(checkpoint: Option<int>, rs: seq<Request>, setup: Setup, d: Dataset,
                                                 from: int)
    requires Regular(checkpoint, rs, setup, d, from)
    ensures var h := Runs(Start(checkpoint), rs, setup, d);
            |h.retentions| == |h.drifts| && (Tiling(h.windows) <==> DriftsMadeUp(h))
  {
    hide Runs, Regular, Tiling, NotInverted, DriftsMadeUp;
    RegularLinked(checkpoint, rs, setup, d, from);
    ShiftedTiling(Runs(Start(checkpoint), rs, setup, d));
  }

  /** With the dataset in every advancing run: if and only if all those runs had the same retention. */
  lemma {:induction false} TilingIffRetentionConstant(checkpoint: Option<int>, rs: seq<Request>, setup: Setup,
                                                      d: Dataset, from: int)
    requires Regular(checkpoint, rs, setup, d, from) && AlwaysSelected(Start(checkpoint), rs, setup, d)
    ensures var h := Runs(Start(checkpoint), rs, setup, d);
            Tiling(h.windows) <==> AllEqual(h.retentions)
  {
    hide Runs, Regular, Tiling, AllEqual, NotInverted, Shifted, AlwaysSelected;
    RegularLinked(checkpoint, rs, setup, d, from);
    NoDrift(checkpoint, rs, setup, d);
    TilingIffEqualRetentions(Runs(Start(checkpoint), rs, setup, d));
  }

  // ----- how often a row is archived -----

  function Count(ws: seq<Window>, time: int): nat {
    if ws == [] then 0
    else Count(ws[..|ws| - 1], time) + if Selects(ws[|ws| - 1], time) then 1 else 0
  }

  /** The junctions between consecutive windows in whose gap the row lies. */
  function Skips(ws: seq<Window>, time: int): nat {
    if |ws| < 2 then 0
    else Skips(ws[..|ws| - 1], time) + if ws[|ws| - 2].end <= time < ws[|ws| - 1].start then 1 else 0
  }

  /** The junctions in whose overlap it lies. */
  function Repeats(ws: seq<Window>, time: int): nat {
    if |ws| < 2 then 0
    else Repeats(ws[..|ws| - 1], time) + if ws[|ws| - 1].start <= time < ws[|ws| - 2].end then 1 else 0
  }

  /** A row is archived once for lying in the span, once more for each overlap and once less for each gap. */
  lemma {:induction false} CountBalance(ws: seq<Window>, time: int)
    requires NotInverted(ws) && ws != []
    ensures Count(ws, time) + Skips(ws, time) + (if ws[|ws| - 1].end <= time then 1 else 0)
            == Repeats(ws, time) + if ws[0].start <= time then 1 else 0
    decreases |ws|
  {
    if |ws| == 1 {
      assert ws[..0] == [];
    } else {
      CountBalance(ws[..|ws| - 1], time);
    }
  }

  lemma {:induction false} NoGapsInTiling(ws: seq<Window>, time: int)
    requires Tiling(ws)
    ensures Skips(ws, time) == 0 && Repeats(ws, time) == 0
    ensures ws != [] ==> ws[0].start <= ws[|ws| - 1].end
    decreases |ws|
  {
    if |ws| > 1 {
      var front := ws[..|ws| - 1];
      forall k | 0 < k < |front| ensures front[k - 1].end == front[k].start {
        assert ws[k - 1].end == ws[k].start;
      }
      NoGapsInTiling(front, time);
      assert ws[|ws| - 2].end == ws[|ws| - 1].start;
    }
  }

  /** A row in the interval that a tiling spans lies in exactly one window, any other row in none. */
  lemma {:induction false} TilingCountsOnce(ws: seq<Window>, time: int)
    requires Tiling(ws) && ws != []
    ensures Count(ws, time) == if ws[0].start <= time < ws[|ws| - 1].end then 1 else 0
    ensures ws[0].start <= ws[|ws| - 1].end
  {
    hide Count, Skips, Repeats;
    CountBalance(ws, time);
    NoGapsInTiling(ws, time);
  }

  /**
   * Over any such history, with whatever retentions: a row between the first start and the last end is archived
   * as often as one plus the overlaps less the gaps it lies in. So it is lost if and only if the gaps outnumber
   * the overlaps, and archived exactly once if and only if they balance.
   */
  lemma {:induction false} RowsArchivedByBalance(checkpoint: Option<int>, rs: seq<Request>, setup: Setup, d: Dataset,
                                                 from: int, time: int)
    requires Regular(checkpoint, rs, setup, d, from)
    requires var ws := Runs(Start(checkpoint), rs, setup, d).windows;
             ws != [] && ws[0].start <= time < ws[|ws| - 1].end
    ensures var ws := Runs(Start(checkpoint), rs, setup, d).windows;
            && Count(ws, time) == 1 + Repeats(ws, time) - Skips(ws, time)
            && (Count(ws, time) == 0 <==> Skips(ws, time) > Repeats(ws, time))
            && (Count(ws, time) == 1 <==> Skips(ws, time) == Repeats(ws, time))
  {
    hide Runs, Regular, Count, Skips, Repeats;
    RegularLinked(checkpoint, rs, setup, d, from);
    CountBalance(Runs(Start(checkpoint), rs, setup, d).windows, time);
  }

  /**
   * Over any such history with the dataset in every advancing run and one retention, every row in the interval
   * that the windows tile is archived by exactly one of those runs, every other row by none.
   */
  lemma {:induction false} EveryRowArchivedOnce(checkpoint: Option<int>, rs: seq<Request>, setup: Setup, d: Dataset,
                                                from: int, time: int)
    requires Regular(checkpoint, rs, setup, d, from) && AlwaysSelected(Start(checkpoint), rs, setup, d)
    requires AllEqual(Runs(Start(checkpoint), rs, setup, d).retentions)
    ensures var ws := Runs(Start(checkpoint), rs, setup, d).windows;
            && Tiling(ws)
            && (ws != [] ==> Count(ws, time) == if ws[0].start <= time < ws[|ws| - 1].end then 1 else 0)
  {
    hide Runs, Regular, Count, Tiling, AllEqual, AlwaysSelected;
    TilingIffRetentionConstant(checkpoint, rs, setup, d, from);
    var ws := Runs(Start(checkpoint), rs, setup, d).windows;
    if ws != [] {
      TilingCountsOnce(ws, time);
    }
  }

  // ----- histories that lose a row -----

  const EXAMPLE_SETUP := Setup(Some(1), true, true)

  /** A run over the given datasets that succeeds, with the same retention for all. */
  function ExampleRun(datasets: Option<seq<Item>>, now: int, retention: int): Request {
    Request(datasets, false, false, None, None, now,
            map[Raw := retention, Historized := retention, Rejected := retention],
            true, {Raw, Historized, Rejected}, true, true)
  }

  lemma ExampleAdvances(datasets: Option<seq<Item>>, now: int, retention: int, last: Option<int>)
    requires datasets == None || datasets == Some([Name(Historized)])
    ensures var r := ExampleRun(datasets, now, retention);
            && Advances(r, last, EXAMPLE_SETUP) && Default(r, Raw)
            && (Raw in Selection(r).value <==> datasets == None)
  {
    if datasets.Some? {
      var items := set i | i in datasets.value && i != Blank;
      assert items == {Name(Historized)};
      var named := set d: Dataset | d in {Raw, Historized, Rejected} && Name(d) in items;
      assert named == {Historized};
    }
  }

  lemma {:induction false} RunsAppend(h: History, rs: seq<Request>, r: Request, setup: Setup, d: Dataset)
    ensures Runs(h, [], setup, d) == h && Runs(h, rs + [r], setup, d) == After(Runs(h, rs, setup, d), r, setup, d)
  {
    assert (rs + [r])[..|rs|] == rs;
  }

  lemma ExampleAfter(h: History, datasets: Option<seq<Item>>, now: int, retention: int)
    requires datasets == None || datasets == Some([Name(Historized)])
    ensures After(h, ExampleRun(datasets, now, retention), EXAMPLE_SETUP, Raw)
            == if datasets == None then
                 History(Some(now),
                         h.windows + [WindowFor(now, retention, h.checkpoint, Some(1), None, None).value],
                         h.retentions + [retention], h.drifts + [Drift(h)], Some(now))
               else h.(checkpoint := Some(now))
  {
    ExampleAdvances(datasets, now, retention, h.checkpoint);
    hide Selection, Advances, WindowFor, Drift;
  }

  /** Every history of example runs on a clock that does not go back is regular. */
  lemma ExampleRegular(rs: seq<Request>, from: int)
    requires Monotone(from, rs)
    requires forall i :: 0 <= i < |rs| ==> Default(rs[i], Raw)
    ensures Regular(None, rs, EXAMPLE_SETUP, Raw, from)
  {
    hide Runs, Advances, Default, Monotone;
  }

  /** A day later the retention is 10 days instead of 30: the rows of nearly three weeks are in no window. */
  lemma ShrunkRetentionLosesRow() returns (rs: seq<Request>)
    ensures Regular(None, rs, EXAMPLE_SETUP, Raw, 100 * DAY) && AlwaysSelected(Start(None), rs, EXAMPLE_SETUP, Raw)
    ensures var ws := Runs(Start(None), rs, EXAMPLE_SETUP, Raw).windows;
            && ws == [Window(69 * DAY, 70 * DAY), Window(90 * DAY, 91 * DAY)]
            && !Tiling(ws) && Count(ws, 80 * DAY) == 0
  {
    var a, b := ExampleRun(None, 100 * DAY, 30), ExampleRun(None, 101 * DAY, 10);
    rs := [] + [a] + [b];
    ExampleAdvances(None, 100 * DAY, 30, None);
    ExampleAdvances(None, 101 * DAY, 10, None);
    ExampleRegular(rs, 100 * DAY);
    RunsAppend(Start(None), [], a, EXAMPLE_SETUP, Raw);
    RunsAppend(Start(None), [] + [a], b, EXAMPLE_SETUP, Raw);
    ExampleAfter(Start(None), None, 100 * DAY, 30);
    ExampleAfter(Runs(Start(None), [] + [a], EXAMPLE_SETUP, Raw), None, 101 * DAY, 10);
    hide Runs, Selection, Advances, Regular, Count;
    var ws := Runs(Start(None), rs, EXAMPLE_SETUP, Raw).windows;
    assert ws == [Window(69 * DAY, 70 * DAY), Window(90 * DAY, 91 * DAY)];
    assert ws[0].end != ws[1].start;
    CountOfTwo(ws[0], ws[1], 80 * DAY);
  }

  /** A run without the dataset moves the checkpoint past a day of its rows. */
  lemma UnselectedRunLosesRow() returns (rs: seq<Request>)
    ensures Regular(None, rs, EXAMPLE_SETUP, Raw, 100 * DAY)
    ensures AllEqual(Runs(Start(None), rs, EXAMPLE_SETUP, Raw).retentions)
    ensures var ws := Runs(Start(None), rs, EXAMPLE_SETUP, Raw).windows;
            && ws == [Window(69 * DAY, 70 * DAY), Window(71 * DAY, 72 * DAY)]
            && !Tiling(ws) && Count(ws, 70 * DAY) == 0
  {
    var other := Some([Name(Historized)]);
    var a, b, c := ExampleRun(None, 100 * DAY, 30), ExampleRun(other, 101 * DAY, 30), ExampleRun(None, 102 * DAY, 30);
    rs := [] + [a] + [b] + [c];
    ExampleAdvances(None, 100 * DAY, 30, None);
    ExampleAdvances(other, 101 * DAY, 30, None);
    ExampleAdvances(None, 102 * DAY, 30, None);
    ExampleRegular(rs, 100 * DAY);
    RunsAppend(Start(None), [], a, EXAMPLE_SETUP, Raw);
    RunsAppend(Start(None), [] + [a], b, EXAMPLE_SETUP, Raw);
    RunsAppend(Start(None), [] + [a] + [b], c, EXAMPLE_SETUP, Raw);
    ExampleAfter(Start(None), None, 100 * DAY, 30);
    ExampleAfter(Runs(Start(None), [] + [a], EXAMPLE_SETUP, Raw), other, 101 * DAY, 30);
    ExampleAfter(Runs(Start(None), [] + [a] + [b], EXAMPLE_SETUP, Raw), None, 102 * DAY, 30);
    hide Runs, Selection, Advances, Regular, Count;
    var ws := Runs(Start(None), rs, EXAMPLE_SETUP, Raw).windows;
    assert ws == [Window(69 * DAY, 70 * DAY), Window(71 * DAY, 72 * DAY)];
    assert ws[0].end != ws[1].start;
    CountOfTwo(ws[0], ws[1], 70 * DAY);
  }

  lemma {:induction false} CountOfTwo(v: Window, w: Window, time: int)
    ensures Count([v, w], time) == (if Selects(v, time) then 1 else 0) + if Selects(w, time) then 1 else 0
  {
    assert [v, w][..1] == [v] && [v][..0] == [];
    assert Count([v], time) == Count([], time) + if Selects(v, time) then 1 else 0;
  }
}
