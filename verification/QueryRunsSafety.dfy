/**
Any interleaving of starts, frames, endings, stops, reruns and closed tabs. `World` is the store
together with the calls still going on and what each run and rerun has sent so far; nothing in it
but `runs` exists in the program.
*/
module QueryRunsSafety {
  import opened Prelude
  import opened QueryRuns

  /** A call, and how often its tab had been forgotten when it began. */
  datatype Flight = Flight(call: Call, born: nat)

  datatype Reflight = Reflight(recall: Recall, born: nat)

  /** The answer of a statement run again. */
  datatype Answer = Answer(index: nat, result: StatementResult)

  /**
  `live` are the starts, and `over` the reruns, that have not and that have ended; `answers` are the
  answers of reruns that came in while a run was on screen; `forgotten` counts how often a tab was closed.
  */
  datatype World = World(
    runs: Runs,
    flights: map<RunId, Flight>,
    live: set<RunId>,
    sent: map<RunId, seq<Frame>>,
    answers: map<RunId, seq<Answer>>,
    reflights: map<nat, Reflight>,
    over: set<nat>,
    forgotten: map<TabId, nat>)

  datatype Event =
    | Start(tab: TabId, params: RunParams, runId: RunId)
    | Deliver(runId: RunId, frame: Frame)
    | Succeed(runId: RunId, summary: Summary)
    | Fail(runId: RunId, error: RunError)
    | Stop(tab: TabId)
    | Rerun(tab: TabId, index: nat, id: nat)
    | DeliverRerun(id: nat, frame: Frame)
    | EndRerun(id: nat)
    | Forget(tab: TabId)

  const EMPTY := World(map[], map[], {}, map[], map[], map[], {}, map[])

  function Age(w: World, tab: TabId): nat {
    if tab in w.forgotten then w.forgotten[tab] else 0
  }

  function Sent(w: World, runId: RunId): seq<Frame> {
    if runId in w.sent then w.sent[runId] else []
  }

  function Answers(w: World, runId: RunId): seq<Answer> {
    if runId in w.answers then w.answers[runId] else []
  }

  // ------------------------------------------------------------------ one event

  function DoStart(w: World, e: Event): World
    requires e.Start?
  {
    if !MayStart(w.runs, e.tab) then w
    else
      var call := Call(e.tab, e.runId, e.params, Lookup(w.runs, e.tab));
      w.(runs := StartRun(w.runs, call),
         flights := w.flights[e.runId := Flight(call, Age(w, e.tab))],
         live := w.live + {e.runId})
  }

  function DoDeliver(w: World, runId: RunId, frame: Frame): World
    requires runId in w.flights
  {
    w.(runs := ApplyFrame(w.runs, w.flights[runId].call, frame),
       sent := w.sent[runId := Sent(w, runId) + [frame]])
  }

  function DoEnd(w: World, runId: RunId, runs: Runs): World {
    w.(runs := runs, live := w.live - {runId})
  }

  function DoRerun(w: World, tab: TabId, index: nat, id: nat): World {
    if !MayRerun(w.runs, tab, index) then w
    else
      var recall := Recall(tab, index, w.runs[tab].count);
      w.(runs := Marked(w.runs, recall, Some(index)),
         reflights := w.reflights[id := Reflight(recall, Age(w, tab))])
  }

  function DoAnswer(w: World, recall: Recall, result: StatementResult): World {
    if !Matches(w.runs, recall) then w
    else
      var u := w.(runs := ApplyRerun(w.runs, recall, result));
      match w.runs[recall.tab].runId
      case None => u
      case Some(runId) => u.(answers := w.answers[runId := Answers(w, runId) + [Answer(recall.index, result)]])
  }

  /** What an event makes of the world; one about a call that never began, or is over, does nothing. */
  function Do(w: World, e: Event): World {
    match e
    case Start(_, _, _) => DoStart(w, e)
    case Deliver(runId, frame) => if runId in w.flights then DoDeliver(w, runId, frame) else w
    case Succeed(runId, summary) =>
      if Going(w, runId) then DoEnd(w, runId, Succeeded(w.runs, w.flights[runId].call, summary)) else w
    case Fail(runId, error) =>
      if Going(w, runId) then DoEnd(w, runId, Failing(w.runs, w.flights[runId].call, error)) else w
    case Stop(tab) => w.(runs := Stopping(w.runs, tab))
    case Rerun(tab, index, id) => DoRerun(w, tab, index, id)
    case DeliverRerun(id, frame) =>
      if id in w.reflights && frame.Finished? then DoAnswer(w, w.reflights[id].recall, frame.result) else w
    case EndRerun(id) =>
      if id in w.reflights && id !in w.over
      then w.(runs := Marked(w.runs, w.reflights[id].recall, None), over := w.over + {id})
      else w
    case Forget(tab) => w.(runs := w.runs - {tab}, forgotten := w.forgotten[tab := Age(w, tab) + 1])
  }

  predicate Going(w: World, runId: RunId) { runId in w.live && runId in w.flights }

  /** Runs and reruns are given ids that were never given before. */
  predicate Fresh(w: World, e: Event) {
    match e
    case Start(_, _, runId) => runId !in w.flights && runId !in w.sent && runId !in w.answers
    case Rerun(_, _, id) => id !in w.reflights && id !in w.over
    case _ => true
  }

  // ------------------------------------------------------------------ what a run's frames amount to

  datatype Progress = Progress(planned: nat, statements: seq<StatementRun>, summary: Option<Summary>)

  function Advanced(p: Progress, frame: Frame): Progress {
    match frame
    case Planned(plans) => Progress(p.planned + 1, PlannedAll(plans), None)
    case Started(index) => p.(statements := StartedAt(p.statements, index))
    case Finished(result) => p.(statements := AnsweredAt(p.statements, result.index, result))
    case Done(summary) => p.(summary := Some(summary))
  }

  /** A run's frames, from nothing. */
  function Fold(frames: seq<Frame>): Progress {
    if frames == [] then Progress(0, [], None) else Advanced(Fold(frames[..|frames| - 1]), Last(frames))
  }

  lemma FoldSnoc(frames: seq<Frame>, frame: Frame)
    ensures Fold(frames + [frame]) == Advanced(Fold(frames), frame)
  {
    assert (frames + [frame])[..|frames|] == frames;
  }

  // ------------------------------------------------------------------ the invariant

  /** The entry shows the run `runId` of the flight, as far as its frames go. */
  ghost predicate Shows(w: World, run: TabRun, flight: Flight) {
    var p := Fold(Sent(w, flight.call.runId));
    && run.count == CountBefore(flight.call) + p.planned
    && (p.planned > 0 ==>
        run.statements == p.statements && run.summary == p.summary && run.fatal.None?
        && run.script == flight.call.params.script && run.params == Some(flight.call.params))
  }

  /** A flight that is on screen: it began since the tab was last closed, and is not over. */
  ghost predicate OnScreen(w: World, runId: RunId) {
    runId in w.live && runId in w.flights && w.flights[runId].born == Age(w, w.flights[runId].call.tab)
  }

  function AnsweredAll(statements: seq<StatementRun>, answers: seq<Answer>): seq<StatementRun> {
    if answers == [] then statements
    else
      var last := Last(answers);
      AnsweredAt(AnsweredAll(statements, answers[..|answers| - 1]), last.index, last.result)
  }

  function StatementsBefore(call: Call): seq<StatementRun> {
    if call.previous.Some? then call.previous.value.statements else []
  }

  /** While a run has sent nothing, its tab shows the results from before it, with the answers since. */
  ghost predicate Waits(w: World, run: TabRun, flight: Flight) {
    Sent(w, flight.call.runId) == [] ==>
      run.statements == AnsweredAll(StatementsBefore(flight.call), Answers(w, flight.call.runId))
  }

  ghost predicate EntryInv(w: World, tab: TabId, run: TabRun) {
    && (run.running <==> run.runId.Some?)
    && (run.stopping ==> run.running)
    && (run.rerunning.Some? ==> !run.running)
    && (run.params.Some? ==> run.count > 0)
    && (run.runId.Some? ==> RunInv(w, tab, run, run.runId.value))
  }

  ghost predicate RunInv(w: World, tab: TabId, run: TabRun, runId: RunId) {
    && OnScreen(w, runId) && w.flights[runId].call.tab == tab
    && Shows(w, run, w.flights[runId]) && Waits(w, run, w.flights[runId])
  }

  ghost predicate AtRest(run: TabRun) {
    !run.running && !run.stopping && run.runId.None? && (run.params.Some? ==> run.count > 0)
  }

  ghost predicate FlightInv(w: World, runId: RunId) {
    runId in w.flights && var call := w.flights[runId].call;
    && call.runId == runId && w.flights[runId].born <= Age(w, call.tab)
    && (call.previous.Some? ==> AtRest(call.previous.value))
    && (OnScreen(w, runId) ==> Current(w.runs, call.tab, runId))
  }

  /** A rerun that began since its tab was last closed belongs to the results from before the run on screen. */
  ghost predicate ReflightInv(w: World, r: Reflight) {
    && r.born <= Age(w, r.recall.tab) && r.recall.count > 0
    && (r.born == Age(w, r.recall.tab) ==>
          r.recall.tab in w.runs && Earlier(w, r.recall.count, w.runs[r.recall.tab]))
  }

  ghost predicate Earlier(w: World, count: nat, run: TabRun) {
    && count <= run.count
    && (run.runId.Some? && run.runId.value in w.flights ==> count <= CountBefore(w.flights[run.runId.value].call))
  }

  ghost predicate Inv(w: World) {
    && (forall tab :: tab in w.runs ==> EntryInv(w, tab, w.runs[tab]))
    && (forall runId :: runId in w.flights ==> FlightInv(w, runId))
    && (forall runId :: runId in w.live || runId in w.sent || runId in w.answers ==> runId in w.flights)
    && (forall id :: id in w.reflights ==> ReflightInv(w, w.reflights[id]))
    && w.over <= w.reflights.Keys
  }

  // ------------------------------------------------------------------ what does harm

  /** The tab shows a run whose plan has arrived. */
  ghost predicate PlannedOnScreen(w: World, tab: TabId) {
    tab in w.runs && w.runs[tab].runId.Some? && Fold(Sent(w, w.runs[tab].runId.value)).planned > 0
  }

  /** A rerun's answer that would change a statement of a planned run it does not belong to. */
  ghost predicate Overwrites(w: World, id: nat, frame: Frame) {
    && id in w.reflights && frame.Finished? && Matches(w.runs, w.reflights[id].recall)
    && var recall := w.reflights[id].recall;
    && PlannedOnScreen(w, recall.tab)
    && AnsweredAt(w.runs[recall.tab].statements, recall.index, frame.result) != w.runs[recall.tab].statements
  }

  /** A refusal from before the tab was last closed. */
  predicate LateRefusal(w: World, e: Event) {
    e.Fail? && e.error == Unconfirmed && Going(w, e.runId) &&
      w.flights[e.runId].born != Age(w, w.flights[e.runId].call.tab)
  }

  /** The refusal comes in while the tab is running another start. */
  predicate Displaces(w: World, e: Event) {
    LateRefusal(w, e) && var tab := w.flights[e.runId].call.tab; tab in w.runs && w.runs[tab].running
  }

  /** The rerun is one of the tab, begun since the tab was last closed. */
  predicate BelongsTo(w: World, id: nat, tab: TabId) {
    id in w.reflights && w.reflights[id].recall.tab == tab && w.reflights[id].born == Age(w, tab)
  }

  /** The refusal puts back results that are older than those some rerun of the tab belongs to. */
  ghost predicate SetsBack(w: World, e: Event) {
    && LateRefusal(w, e)
    && var call := w.flights[e.runId].call;
    exists id :: BelongsTo(w, id, call.tab)
      && !(call.previous.Some? && w.reflights[id].recall.count <= call.previous.value.count)
  }

  /** The events after which some tab no longer shows its own run. All of this can be asked before the event. */
  ghost predicate Breaks(w: World, e: Event) {
    Displaces(w, e) || (e.DeliverRerun? && Overwrites(w, e.id, e.frame))
  }

  /** The events that break the invariant. */
  ghost predicate Spoils(w: World, e: Event) {
    Breaks(w, e) || SetsBack(w, e)
  }

  // ------------------------------------------------------------------ every other event keeps it

  lemma StartFlight(w: World, e: Event, runId: RunId)
    requires Inv(w) && e.Start? && Fresh(w, e) && MayStart(w.runs, e.tab) && runId in Do(w, e).flights
    ensures FlightInv(Do(w, e), runId)
  {
    if e.tab in w.runs {
      assert EntryInv(w, e.tab, w.runs[e.tab]);
    }
    if runId != e.runId {
      assert FlightInv(w, runId);
      assert OnScreen(Do(w, e), runId) ==> OnScreen(w, runId);
    }
  }

  lemma StartEntry(w: World, e: Event, tab: TabId)
    requires Inv(w) && e.Start? && Fresh(w, e) && MayStart(w.runs, e.tab) && tab in Do(w, e).runs
    ensures EntryInv(Do(w, e), tab, Do(w, e).runs[tab])
  {
    var v := Do(w, e);
    if tab in w.runs {
      assert EntryInv(w, tab, w.runs[tab]);
    }
    assert Sent(v, e.runId) == [] && Answers(v, e.runId) == [] && Fold([]) == Progress(0, [], None);
  }

  lemma StartKeeps(w: World, e: Event)
    requires Inv(w) && e.Start? && Fresh(w, e)
    ensures Inv(Do(w, e))
  {
    if MayStart(w.runs, e.tab) {
      var v := Do(w, e);
      forall runId | runId in v.flights ensures FlightInv(v, runId) {
        StartFlight(w, e, runId);
      }
      forall tab | tab in v.runs ensures EntryInv(v, tab, v.runs[tab]) {
        StartEntry(w, e, tab);
      }
      forall id | id in v.reflights ensures ReflightInv(v, v.reflights[id]) {
        assert ReflightInv(w, w.reflights[id]);
      }
    }
  }

  lemma FrameShows(w: World, runId: RunId, frame: Frame, run: TabRun)
    requires runId in w.flights && w.flights[runId].call.runId == runId && Shows(w, run, w.flights[runId])
    ensures Shows(DoDeliver(w, runId, frame), FrameOn(run, w.flights[runId].call.params, frame), w.flights[runId])
  {
    FoldSnoc(Sent(w, runId), frame);
    assert Sent(DoDeliver(w, runId, frame), runId) == Sent(w, runId) + [frame];
  }

  lemma DeliverEntry(w: World, runId: RunId, frame: Frame, tab: TabId)
    requires Inv(w) && runId in w.flights && tab in w.runs
    ensures EntryInv(DoDeliver(w, runId, frame), tab, DoDeliver(w, runId, frame).runs[tab])
  {
    var v, call, run := DoDeliver(w, runId, frame), w.flights[runId].call, w.runs[tab];
    assert EntryInv(w, tab, run) && FlightInv(w, runId);
    if run.runId == Some(runId) {
      FrameShows(w, runId, frame, run);
      assert Sent(v, runId) != [];
    } else if run.runId.Some? {
      assert FlightInv(w, run.runId.value);
      assert Sent(v, run.runId.value) == Sent(w, run.runId.value);
    }
  }

  lemma DeliverKeeps(w: World, runId: RunId, frame: Frame)
    requires Inv(w) && runId in w.flights
    ensures Inv(DoDeliver(w, runId, frame))
  {
    var v := DoDeliver(w, runId, frame);
    forall tab | tab in v.runs ensures EntryInv(v, tab, v.runs[tab]) {
      DeliverEntry(w, runId, frame, tab);
    }
    forall id | id in v.flights ensures FlightInv(v, id) {
      assert FlightInv(w, id);
    }
    forall id | id in v.reflights ensures ReflightInv(v, v.reflights[id]) {
      assert ReflightInv(w, w.reflights[id]);
    }
  }

  /** The results of a tab that some rerun of it still belongs to are not set back by `run`. */
  ghost predicate NotSetBack(w: World, tab: TabId, run: Option<TabRun>) {
    forall id :: BelongsTo(w, id, tab) ==> run.Some? && w.reflights[id].recall.count <= run.value.count
  }

  function WithEntry(runs: Runs, tab: TabId, run: Option<TabRun>): Runs {
    match run case None => runs - {tab} case Some(r) => runs[tab := r]
  }

  /** A call that is over leaves its tab at rest, and nothing on screen in it. */
  lemma EndKeeps(w: World, runId: RunId, run: Option<TabRun>)
    requires Inv(w) && Going(w, runId)
    requires run.Some? ==> AtRest(run.value)
    requires var tab := w.flights[runId].call.tab;
      NotSetBack(w, tab, run) && (tab in w.runs && w.runs[tab].running ==> OnScreen(w, runId))
    ensures Inv(DoEnd(w, runId, WithEntry(w.runs, w.flights[runId].call.tab, run)))
  {
    var t := w.flights[runId].call.tab;
    var v := DoEnd(w, runId, WithEntry(w.runs, t, run));
    assert FlightInv(w, runId);
    if t in w.runs {
      assert EntryInv(w, t, w.runs[t]);
    }
    forall tab | tab in v.runs ensures EntryInv(v, tab, v.runs[tab]) {
      if tab != t {
        assert EntryInv(w, tab, w.runs[tab]);
      }
    }
    forall id | id in v.flights ensures FlightInv(v, id) {
      assert FlightInv(w, id);
    }
    forall id | id in v.reflights ensures ReflightInv(v, v.reflights[id]) {
      assert ReflightInv(w, w.reflights[id]);
    }
  }

  /** A call that is over and no longer on screen. */
  lemma EndUnseenKeeps(w: World, runId: RunId)
    requires Inv(w) && runId in w.flights && !OnScreen(w, runId)
    ensures Inv(DoEnd(w, runId, w.runs))
    ensures !Current(w.runs, w.flights[runId].call.tab, runId)
  {
    var v := DoEnd(w, runId, w.runs);
    forall tab | tab in v.runs ensures EntryInv(v, tab, v.runs[tab]) {
      assert EntryInv(w, tab, w.runs[tab]);
    }
    forall id | id in v.flights ensures FlightInv(v, id) {
      assert FlightInv(w, id);
    }
    forall id | id in v.reflights ensures ReflightInv(v, v.reflights[id]) {
      assert ReflightInv(w, w.reflights[id]);
    }
    var t := w.flights[runId].call.tab;
    if t in w.runs {
      assert EntryInv(w, t, w.runs[t]);
    }
  }

  /** What reruns of the tab belong to is not newer than the results from before the run on screen. */
  lemma BeforeIsNotSetBack(w: World, runId: RunId, count: nat)
    requires Inv(w) && OnScreen(w, runId) && count >= CountBefore(w.flights[runId].call)
    ensures forall id :: BelongsTo(w, id, w.flights[runId].call.tab) ==> w.reflights[id].recall.count <= count
  {
    var tab := w.flights[runId].call.tab;
    assert FlightInv(w, runId);
    forall id | BelongsTo(w, id, tab) ensures w.reflights[id].recall.count <= count {
      assert ReflightInv(w, w.reflights[id]);
    }
  }

  lemma SucceedKeeps(w: World, runId: RunId, summary: Summary)
    requires Inv(w)
    ensures Inv(Do(w, Event.Succeed(runId, summary)))
  {
    if Going(w, runId) {
      var call := w.flights[runId].call;
      assert FlightInv(w, runId);
      if OnScreen(w, runId) {
        var run := w.runs[call.tab];
        assert EntryInv(w, call.tab, run);
        BeforeIsNotSetBack(w, runId, run.count);
        EndKeeps(w, runId, Some(run.(summary := Some(summary), running := false, stopping := false, runId := None)));
      } else {
        EndUnseenKeeps(w, runId);
      }
    }
  }

  /** A run that breaks, on screen or not; no refusal. */
  lemma BrokenKeeps(w: World, runId: RunId, error: RunError)
    requires Inv(w) && Going(w, runId) && (error != Unconfirmed || PlanArrived(w.runs, w.flights[runId].call))
    ensures Inv(Do(w, Event.Fail(runId, error)))
  {
    var call := w.flights[runId].call;
    assert FlightInv(w, runId);
    if OnScreen(w, runId) {
      var run := w.runs[call.tab];
      assert EntryInv(w, call.tab, run);
      BeforeIsNotSetBack(w, runId, Broke(run, call, error, PlanArrived(w.runs, call)).count);
      EndKeeps(w, runId, Some(Broke(run, call, error, PlanArrived(w.runs, call))));
    } else {
      EndUnseenKeeps(w, runId);
    }
  }

  /** A refusal puts back exactly what the tab showed when the start began. */
  lemma RefusedIsPrevious(w: World, runId: RunId)
    requires Inv(w) && Going(w, runId)
    ensures Refused(w.runs, w.flights[runId].call) ==
      WithEntry(w.runs, w.flights[runId].call.tab, w.flights[runId].call.previous)
  {
    assert FlightInv(w, runId);
  }

  lemma RefusedKeeps(w: World, runId: RunId)
    requires Inv(w) && Going(w, runId) && !PlanArrived(w.runs, w.flights[runId].call)
    requires !Spoils(w, Event.Fail(runId, Unconfirmed))
    ensures Inv(Do(w, Event.Fail(runId, Unconfirmed)))
  {
    var call := w.flights[runId].call;
    assert FlightInv(w, runId);
    RefusedIsPrevious(w, runId);
    if OnScreen(w, runId) {
      BeforeIsNotSetBack(w, runId, CountBefore(call));
      OpenedAfterReruns(w, runId);
    }
    EndKeeps(w, runId, call.previous);
  }

  /** A tab that showed nothing when the run on screen began has had no reruns since it was last closed. */
  lemma OpenedAfterReruns(w: World, runId: RunId)
    requires Inv(w) && OnScreen(w, runId)
    ensures NotSetBack(w, w.flights[runId].call.tab, w.flights[runId].call.previous)
  {
    var call := w.flights[runId].call;
    BeforeIsNotSetBack(w, runId, CountBefore(call));
    forall id | BelongsTo(w, id, call.tab) ensures call.previous.Some? {
      assert ReflightInv(w, w.reflights[id]);
    }
  }

  /** Only entries changed, and in none of them which run it shows, or how far. */
  ghost predicate SameShape(w: World, v: World) {
    && v.flights == w.flights && v.live == w.live && v.sent == w.sent
    && v.reflights == w.reflights && v.over == w.over && v.forgotten == w.forgotten
    && v.runs.Keys == w.runs.Keys
    && forall tab :: tab in w.runs ==> v.runs[tab].runId == w.runs[tab].runId && v.runs[tab].count == w.runs[tab].count
  }

  lemma ShapeKeeps(w: World, v: World)
    requires Inv(w) && SameShape(w, v)
    requires forall tab :: tab in v.runs ==> EntryInv(v, tab, v.runs[tab])
    requires forall runId :: runId in v.answers ==> runId in v.flights
    ensures Inv(v)
  {
    forall id | id in v.flights ensures FlightInv(v, id) {
      assert FlightInv(w, id);
    }
    forall id | id in v.reflights ensures ReflightInv(v, v.reflights[id]) {
      assert ReflightInv(w, w.reflights[id]);
    }
  }

  /** An entry changed in ways that do not touch which run it shows, or how far. */
  lemma TouchKeeps(w: World, tab: TabId, run: TabRun)
    requires Inv(w) && tab in w.runs && EntryInv(w, tab, run)
    requires run.count == w.runs[tab].count && run.runId == w.runs[tab].runId
    ensures Inv(w.(runs := w.runs[tab := run]))
  {
    var v := w.(runs := w.runs[tab := run]);
    forall t | t in v.runs ensures EntryInv(v, t, v.runs[t]) {
      if t != tab {
        EntryKept(w, v, t, w.runs[t]);
      } else {
        EntryKept(w, v, tab, run);
      }
    }
    ShapeKeeps(w, v);
  }

  /** What an entry needs of the world. */
  lemma EntryKept(w: World, v: World, tab: TabId, run: TabRun)
    requires EntryInv(w, tab, run)
    requires v.flights == w.flights && v.live == w.live && v.sent == w.sent && v.forgotten == w.forgotten
    requires run.runId.Some? && run.runId.value in w.flights ==>
      Answers(v, w.flights[run.runId.value].call.runId) == Answers(w, w.flights[run.runId.value].call.runId)
    ensures EntryInv(v, tab, run)
  {
    if run.runId.Some? {
      assert RunInv(w, tab, run, run.runId.value);
    }
  }

  lemma StopKeeps(w: World, tab: TabId)
    requires Inv(w)
    ensures Inv(w.(runs := Stopping(w.runs, tab)))
  {
    if MayStop(w.runs, tab) {
      assert EntryInv(w, tab, w.runs[tab]);
      TouchKeeps(w, tab, w.runs[tab].(stopping := true));
    }
  }

  lemma MarkKeeps(w: World, recall: Recall, rerunning: Option<nat>)
    requires Inv(w) && (rerunning.Some? ==> recall.tab in w.runs && !w.runs[recall.tab].running)
    ensures Inv(w.(runs := Marked(w.runs, recall, rerunning)))
  {
    if Matches(w.runs, recall) {
      assert EntryInv(w, recall.tab, w.runs[recall.tab]);
      TouchKeeps(w, recall.tab, w.runs[recall.tab].(rerunning := rerunning));
    }
  }

  lemma RerunKeeps(w: World, tab: TabId, index: nat, id: nat)
    requires Inv(w) && id !in w.reflights
    ensures Inv(DoRerun(w, tab, index, id))
  {
    if MayRerun(w.runs, tab, index) {
      var recall := Recall(tab, index, w.runs[tab].count);
      var u, v := w.(runs := Marked(w.runs, recall, Some(index))), DoRerun(w, tab, index, id);
      assert EntryInv(w, tab, w.runs[tab]);
      MarkKeeps(w, recall, Some(index));
      forall t | t in v.runs ensures EntryInv(v, t, v.runs[t]) {
        assert EntryInv(u, t, u.runs[t]);
      }
      forall r | r in v.flights ensures FlightInv(v, r) {
        assert FlightInv(u, r);
      }
      forall i | i in v.reflights ensures ReflightInv(v, v.reflights[i]) {
        if i != id {
          assert ReflightInv(u, u.reflights[i]);
        }
      }
    }
  }

  lemma EndRerunKeeps(w: World, id: nat)
    requires Inv(w) && id in w.reflights
    ensures Inv(w.(runs := Marked(w.runs, w.reflights[id].recall, None), over := w.over + {id}))
  {
    var u := w.(runs := Marked(w.runs, w.reflights[id].recall, None));
    MarkKeeps(w, w.reflights[id].recall, None);
    var v := u.(over := w.over + {id});
    forall t | t in v.runs ensures EntryInv(v, t, v.runs[t]) {
      assert EntryInv(u, t, u.runs[t]);
    }
    forall r | r in v.flights ensures FlightInv(v, r) {
      assert FlightInv(u, r);
    }
    forall i | i in v.reflights ensures ReflightInv(v, v.reflights[i]) {
      assert ReflightInv(u, u.reflights[i]);
    }
  }

  /** A rerun that began since its tab was last closed never answers into a planned run. */
  lemma OwnRerunMisses(w: World, id: nat)
    requires Inv(w) && id in w.reflights && w.reflights[id].born == Age(w, w.reflights[id].recall.tab)
    ensures PlannedOnScreen(w, w.reflights[id].recall.tab) ==> !Matches(w.runs, w.reflights[id].recall)
  {
    var recall := w.reflights[id].recall;
    assert ReflightInv(w, w.reflights[id]);
    var run := w.runs[recall.tab];
    assert EntryInv(w, recall.tab, run);
    if run.runId.Some? {
      assert FlightInv(w, run.runId.value);
    }
  }

  /** The answer is noted with the run on screen. */
  lemma AnswerWaits(w: World, recall: Recall, result: StatementResult, run: TabRun, runId: RunId)
    requires recall.tab in w.runs && w.runs[recall.tab] == run && run.runId == Some(runId) && runId in w.flights
    requires Matches(w.runs, recall) && w.flights[runId].call.runId == runId && Waits(w, run, w.flights[runId])
    ensures var v := DoAnswer(w, recall, result); recall.tab in v.runs && Waits(v, v.runs[recall.tab], w.flights[runId])
  {
    var v := DoAnswer(w, recall, result);
    var before, answer := Answers(w, runId), Answer(recall.index, result);
    AnsweredMore(StatementsBefore(w.flights[runId].call), before, answer);
    assert Answers(v, runId) == before + [answer];
  }

  lemma AnsweredMore(statements: seq<StatementRun>, answers: seq<Answer>, answer: Answer)
    ensures AnsweredAll(statements, answers + [answer]) ==
      AnsweredAt(AnsweredAll(statements, answers), answer.index, answer.result)
  {
    assert (answers + [answer])[..|answers|] == answers;
  }

  /** New statements in an entry that shows no planned run. */
  lemma StatementsKept(w: World, v: World, tab: TabId, run: TabRun, statements: seq<StatementRun>)
    requires EntryInv(w, tab, run)
    requires v.flights == w.flights && v.live == w.live && v.sent == w.sent && v.forgotten == w.forgotten
    requires run.runId.Some? ==>
      && Waits(v, run.(statements := statements), w.flights[run.runId.value])
      && (Fold(Sent(w, w.flights[run.runId.value].call.runId)).planned > 0 ==> statements == run.statements)
    ensures EntryInv(v, tab, run.(statements := statements))
  {
    if run.runId.Some? {
      assert RunInv(w, tab, run, run.runId.value);
    }
  }

  lemma AnswerEntry(w: World, recall: Recall, result: StatementResult)
    requires Inv(w) && Matches(w.runs, recall)
    requires PlannedOnScreen(w, recall.tab) ==>
      AnsweredAt(w.runs[recall.tab].statements, recall.index, result) == w.runs[recall.tab].statements
    ensures EntryInv(DoAnswer(w, recall, result), recall.tab, DoAnswer(w, recall, result).runs[recall.tab])
  {
    var v, run := DoAnswer(w, recall, result), w.runs[recall.tab];
    assert EntryInv(w, recall.tab, run);
    if run.runId.Some? {
      assert FlightInv(w, run.runId.value);
      AnswerWaits(w, recall, result, run, run.runId.value);
    }
    StatementsKept(w, v, recall.tab, run, AnsweredAt(run.statements, recall.index, result));
  }

  /** Two tabs never show the same run, and the run a tab shows has begun in it. */
  lemma ShownRunBegan(w: World, tab: TabId)
    requires Inv(w) && tab in w.runs && w.runs[tab].runId.Some?
    ensures var runId := w.runs[tab].runId.value;
      runId in w.flights && w.flights[runId].call.tab == tab && w.flights[runId].call.runId == runId
  {
    assert EntryInv(w, tab, w.runs[tab]) && FlightInv(w, w.runs[tab].runId.value);
  }

  lemma AnswerElsewhere(w: World, recall: Recall, result: StatementResult, tab: TabId)
    requires Inv(w) && Matches(w.runs, recall) && tab in w.runs && tab != recall.tab
    ensures EntryInv(DoAnswer(w, recall, result), tab, w.runs[tab])
  {
    var run := w.runs[tab];
    if run.runId.Some? {
      ShownRunBegan(w, tab);
      AnswersElsewhere(w, recall, result, tab, run.runId.value);
    }
    EntryKept(w, DoAnswer(w, recall, result), tab, run);
  }

  lemma AnswersElsewhere(w: World, recall: Recall, result: StatementResult, tab: TabId, runId: RunId)
    requires Inv(w) && Matches(w.runs, recall) && tab in w.runs && tab != recall.tab && w.runs[tab].runId == Some(runId)
    ensures Answers(DoAnswer(w, recall, result), runId) == Answers(w, runId)
  {
    ShownRunBegan(w, tab);
    if w.runs[recall.tab].runId.Some? {
      ShownRunBegan(w, recall.tab);
    }
  }

  lemma AnswerKeeps(w: World, recall: Recall, result: StatementResult)
    requires Inv(w)
    requires Matches(w.runs, recall) && PlannedOnScreen(w, recall.tab) ==>
      AnsweredAt(w.runs[recall.tab].statements, recall.index, result) == w.runs[recall.tab].statements
    ensures Inv(DoAnswer(w, recall, result))
  {
    if Matches(w.runs, recall) {
      var v := DoAnswer(w, recall, result);
      AnswerEntry(w, recall, result);
      forall tab | tab in v.runs ensures EntryInv(v, tab, v.runs[tab]) {
        if tab != recall.tab {
          AnswerElsewhere(w, recall, result, tab);
        }
      }
      AnswerShape(w, recall, result);
      ShapeKeeps(w, v);
    }
  }

  lemma AnswerShape(w: World, recall: Recall, result: StatementResult)
    requires Inv(w) && Matches(w.runs, recall)
    ensures var v := DoAnswer(w, recall, result);
      SameShape(w, v) && forall runId :: runId in v.answers ==> runId in v.flights
  {
    if w.runs[recall.tab].runId.Some? {
      ShownRunBegan(w, recall.tab);
    }
  }

  lemma ForgetKeeps(w: World, tab: TabId)
    requires Inv(w)
    ensures Inv(Do(w, Event.Forget(tab)))
  {
    var v := Do(w, Event.Forget(tab));
    forall t | t in v.runs ensures EntryInv(v, t, v.runs[t]) {
      assert EntryInv(w, t, w.runs[t]);
    }
    forall id | id in v.flights ensures FlightInv(v, id) {
      assert FlightInv(w, id);
    }
    forall id | id in v.reflights ensures ReflightInv(v, v.reflights[id]) {
      assert ReflightInv(w, w.reflights[id]);
    }
  }

  lemma HarmlessKeepsInv(w: World, e: Event)
    requires Inv(w) && Fresh(w, e) && !Spoils(w, e)
    ensures Inv(Do(w, e))
  {
    match e
    case Start(_, _, _) => StartKeeps(w, e);
    case Deliver(runId, frame) => if runId in w.flights { DeliverKeeps(w, runId, frame); }
    case Succeed(runId, summary) => SucceedKeeps(w, runId, summary);
    case Fail(runId, error) =>
      if Going(w, runId) {
        if error == Unconfirmed && !PlanArrived(w.runs, w.flights[runId].call) {
          RefusedKeeps(w, runId);
        } else {
          BrokenKeeps(w, runId, error);
        }
      }
    case Stop(tab) => StopKeeps(w, tab);
    case Rerun(tab, index, id) => RerunKeeps(w, tab, index, id);
    case DeliverRerun(id, frame) =>
      if id in w.reflights && frame.Finished? { AnswerKeeps(w, w.reflights[id].recall, frame.result); }
    case EndRerun(id) => if id in w.reflights && id !in w.over { EndRerunKeeps(w, id); }
    case Forget(tab) => ForgetKeeps(w, tab);
  }

  // ------------------------------------------------------------------ and these break it

  /** A late refusal is never taken for a run that has been planned. */
  lemma LateIsUnplanned(w: World, e: Event)
    requires Inv(w) && LateRefusal(w, e)
    ensures !PlanArrived(w.runs, w.flights[e.runId].call)
    ensures var call := w.flights[e.runId].call;
      Do(w, e) == DoEnd(w, e.runId, WithEntry(w.runs, call.tab, call.previous))
  {
    EndUnseenKeeps(w, e.runId);
    RefusedIsPrevious(w, e.runId);
  }

  /** What a tab shows of a planned run, and that what is on screen is what the tab shows. */
  ghost predicate OwnFrames(w: World) {
    && (forall tab :: tab in w.runs && w.runs[tab].runId.Some? ==> ShowsOwn(w, tab, w.runs[tab]))
    && (forall runId :: OnScreen(w, runId) ==> Current(w.runs, w.flights[runId].call.tab, runId))
  }

  ghost predicate ShowsOwn(w: World, tab: TabId, run: TabRun)
    requires run.runId.Some?
  {
    var runId := run.runId.value;
    var p := Fold(Sent(w, runId));
    && runId in w.flights && w.flights[runId].call.tab == tab
    && (p.planned > 0 ==>
          run.statements == p.statements && run.summary == p.summary &&
            run.script == w.flights[runId].call.params.script)
  }

  lemma InvShowsOwn(w: World)
    requires Inv(w)
    ensures OwnFrames(w)
  {
    forall tab | tab in w.runs && w.runs[tab].runId.Some? ensures ShowsOwn(w, tab, w.runs[tab]) {
      assert EntryInv(w, tab, w.runs[tab]) && FlightInv(w, w.runs[tab].runId.value);
    }
    forall runId | OnScreen(w, runId) ensures Current(w.runs, w.flights[runId].call.tab, runId) {
      assert FlightInv(w, runId);
    }
  }

  lemma DisplacedRunIsGone(w: World, e: Event)
    requires Inv(w) && Displaces(w, e)
    ensures !OwnFrames(Do(w, e))
  {
    var call := w.flights[e.runId].call;
    LateIsUnplanned(w, e);
    assert EntryInv(w, call.tab, w.runs[call.tab]) && FlightInv(w, e.runId);
    var runId := w.runs[call.tab].runId.value;
    assert FlightInv(w, runId);
    assert OnScreen(Do(w, e), runId);
  }

  lemma OverwrittenRunIsWrong(w: World, e: Event)
    requires Inv(w) && e.DeliverRerun? && Overwrites(w, e.id, e.frame)
    ensures !OwnFrames(Do(w, e))
  {
    var tab := w.reflights[e.id].recall.tab;
    var v := Do(w, e);
    assert EntryInv(w, tab, w.runs[tab]) && FlightInv(w, w.runs[tab].runId.value);
    assert !ShowsOwn(v, tab, v.runs[tab]);
  }

  /** Setting results back shows nothing wrong at once. */
  lemma SetBackShowsOwn(w: World, e: Event)
    requires Inv(w) && LateRefusal(w, e) && !Displaces(w, e)
    ensures OwnFrames(Do(w, e))
  {
    var v, call := Do(w, e), w.flights[e.runId].call;
    LateIsUnplanned(w, e);
    InvShowsOwn(w);
    assert FlightInv(w, e.runId);
    if call.tab in w.runs {
      assert EntryInv(w, call.tab, w.runs[call.tab]);
    }
    forall tab | tab in v.runs && v.runs[tab].runId.Some? ensures ShowsOwn(v, tab, v.runs[tab]) {
      assert ShowsOwn(w, tab, w.runs[tab]);
    }
    forall runId | OnScreen(v, runId) ensures Current(v.runs, v.flights[runId].call.tab, runId) {
      assert OnScreen(w, runId);
    }
  }

  /** An event makes some tab stop showing its own run if and only if it is one of those that break things. */
  lemma BreaksExactly(w: World, e: Event)
    requires Inv(w) && Fresh(w, e)
    ensures OwnFrames(Do(w, e)) <==> !Breaks(w, e)
  {
    if Displaces(w, e) {
      DisplacedRunIsGone(w, e);
    } else if e.DeliverRerun? && Overwrites(w, e.id, e.frame) {
      OverwrittenRunIsWrong(w, e);
    } else if SetsBack(w, e) {
      SetBackShowsOwn(w, e);
    } else {
      HarmlessKeepsInv(w, e);
      InvShowsOwn(Do(w, e));
    }
  }

  lemma SetBackSpoils(w: World, e: Event)
    requires Inv(w) && SetsBack(w, e)
    ensures !Inv(Do(w, e))
  {
    var v, call := Do(w, e), w.flights[e.runId].call;
    LateIsUnplanned(w, e);
    var id :| BelongsTo(w, id, call.tab)
      && !(call.previous.Some? && w.reflights[id].recall.count <= call.previous.value.count);
    assert id in v.reflights && !ReflightInv(v, v.reflights[id]);
  }

  /** The invariant survives an event if and only if the event is none of those that spoil it. */
  lemma DoKeepsInvExactly(w: World, e: Event)
    requires Inv(w) && Fresh(w, e)
    ensures Inv(Do(w, e)) <==> !Spoils(w, e)
  {
    if SetsBack(w, e) {
      SetBackSpoils(w, e);
    } else if Breaks(w, e) {
      BreaksExactly(w, e);
      if Inv(Do(w, e)) {
        InvShowsOwn(Do(w, e));
      }
    } else {
      HarmlessKeepsInv(w, e);
    }
  }
}
