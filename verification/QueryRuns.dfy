/**
Batch runs of query tabs (src/stores/queryRuns.ts). A `start` is a call that goes on after it
returns: its frames arrive one by one, then it succeeds or fails. What such a call remembers is
a `Call`; a statement run again is a `Recall`.
*/
module QueryRuns {
  import opened Prelude

  type TabId = nat

  type RunId = nat

  type Summary = nat

  type Outcome = nat

  datatype RunError = Unconfirmed | Broken(message: string)

  datatype RunPiece = RunPiece(from: nat, end: nat)

  datatype RunParams = RunParams(connection: nat, script: string, pieces: seq<RunPiece>, maxRows: Option<nat>)

  datatype StatementState = Pending | Running | Success | Error | Skipped | Cancelled

  datatype StatementRun = StatementRun(index: nat, sql: string, start: nat, end: nat, state: StatementState,
                                       elapsed: Option<nat>, outcome: Option<Outcome>, error: Option<RunError>)

  datatype TabRun = TabRun(
    count: nat, runId: Option<RunId>, running: bool, stopping: bool, rerunning: Option<nat>, script: string,
    params: Option<RunParams>, statements: seq<StatementRun>, summary: Option<Summary>, fatal: Option<RunError>)

  datatype Plan = Plan(index: nat, sql: string, start: nat, end: nat)

  datatype StatementResult = StatementResult(
    index: nat, status: StatementState, elapsed: nat, outcome: Option<Outcome>, error: Option<RunError>)

  datatype Frame =
    | Planned(plans: seq<Plan>)
    | Started(index: nat)
    | Finished(result: StatementResult)
    | Done(summary: Summary)

  type Runs = map<TabId, TabRun>

  /** What a started call remembers: the run on screen when it began, if any. */
  datatype Call = Call(tab: TabId, runId: RunId, params: RunParams, previous: Option<TabRun>)

  /** What a statement run again remembers. */
  datatype Recall = Recall(tab: TabId, index: nat, count: nat)

  const BLANK := TabRun(0, None, false, false, None, "", None, [], None, None)

  // ------------------------------------------------------------------ statements

  function PlannedStatement(plan: Plan): StatementRun {
    StatementRun(plan.index, plan.sql, plan.start, plan.end, Pending, None, None, None)
  }

  function PlannedAll(plans: seq<Plan>): seq<StatementRun> {
    if plans == [] then [] else [PlannedStatement(plans[0])] + PlannedAll(plans[1..])
  }

  function StartedAt(statements: seq<StatementRun>, index: nat): seq<StatementRun> {
    if statements == [] then []
    else
      [if statements[0].index == index then statements[0].(state := Running) else statements[0]] +
      StartedAt(statements[1..], index)
  }

  function Answered(s: StatementRun, r: StatementResult): StatementRun {
    s.(state := r.status, elapsed := Some(r.elapsed), outcome := r.outcome, error := r.error)
  }

  /** The statement `index` with the result `r`. */
  function AnsweredAt(statements: seq<StatementRun>, index: nat, r: StatementResult): seq<StatementRun> {
    if statements == [] then []
    else
      [if statements[0].index == index then Answered(statements[0], r) else statements[0]] +
      AnsweredAt(statements[1..], index, r)
  }

  /** What never reported back is skipped. */
  function SkippedRest(statements: seq<StatementRun>): seq<StatementRun> {
    if statements == [] then []
    else
      var s := statements[0];
      [if s.state == Pending || s.state == Running then s.(state := Skipped) else s] + SkippedRest(statements[1..])
  }

  predicate HasIndex(statements: seq<StatementRun>, index: nat) {
    exists k :: 0 <= k < |statements| && statements[k].index == index
  }

  // ------------------------------------------------------------------ what each event makes of the runs

  predicate Current(runs: Runs, tab: TabId, runId: RunId) {
    tab in runs && runs[tab].runId == Some(runId)
  }

  function Lookup(runs: Runs, tab: TabId): Option<TabRun> {
    if tab in runs then Some(runs[tab]) else None
  }

  function CountBefore(call: Call): nat {
    if call.previous.Some? then call.previous.value.count else 0
  }

  predicate MayStart(runs: Runs, tab: TabId) {
    tab !in runs || !runs[tab].running
  }

  /** The entry shown while the plan has not arrived: the previous results, marked as running. */
  function Opening(previous: Option<TabRun>, runId: RunId): TabRun {
    (if previous.Some? then previous.value else BLANK).(runId := Some(runId), running := true, stopping := false,
      rerunning := None)
  }

  function StartRun(runs: Runs, call: Call): Runs {
    runs[call.tab := Opening(call.previous, call.runId)]
  }

  function FrameOn(run: TabRun, params: RunParams, frame: Frame): TabRun {
    match frame
    case Planned(plans) =>
      run.(count := run.count + 1, script := params.script, params := Some(params), statements := PlannedAll(plans),
        summary := None, fatal := None)
    case Started(index) => run.(statements := StartedAt(run.statements, index))
    case Finished(result) => run.(statements := AnsweredAt(run.statements, result.index, result))
    case Done(summary) => run.(summary := Some(summary))
  }

  function ApplyFrame(runs: Runs, call: Call, frame: Frame): Runs {
    if Current(runs, call.tab, call.runId) then runs[call.tab := FrameOn(runs[call.tab], call.params, frame)] else runs
  }

  function Succeeded(runs: Runs, call: Call, summary: Summary): Runs {
    if Current(runs, call.tab, call.runId)
    then runs[call.tab := runs[call.tab].(summary := Some(summary), running := false, stopping := false, runId := None)]
    else runs
  }

  predicate PlanArrived(runs: Runs, call: Call) {
    Current(runs, call.tab, call.runId) && runs[call.tab].count > CountBefore(call)
  }

  /** The run was refused for want of a confirmation: the entry from before it is put back, whatever is there now. */
  function Refused(runs: Runs, call: Call): Runs {
    match call.previous
    case None => runs - {call.tab}
    case Some(run) => runs[call.tab := run.(running := false, stopping := false)]
  }

  function Broke(run: TabRun, call: Call, error: RunError, planArrived: bool): TabRun {
    var ended := run.(running := false, stopping := false, runId := None, fatal := Some(error));
    if planArrived then ended.(statements := SkippedRest(run.statements))
    else ended.(count := run.count + 1, script := call.params.script, params := Some(call.params), statements := [],
      summary := None)
  }

  function Failing(runs: Runs, call: Call, error: RunError): Runs {
    if error == Unconfirmed && !PlanArrived(runs, call) then Refused(runs, call)
    else if Current(runs, call.tab, call.runId)
      then runs[call.tab := Broke(runs[call.tab], call, error, PlanArrived(runs, call))]
    else runs
  }

  predicate MayStop(runs: Runs, tab: TabId) {
    tab in runs && runs[tab].running && runs[tab].runId.Some? && !runs[tab].stopping
  }

  function Stopping(runs: Runs, tab: TabId): Runs {
    if MayStop(runs, tab) then runs[tab := runs[tab].(stopping := true)] else runs
  }

  predicate MayRerun(runs: Runs, tab: TabId, index: nat) {
    && tab in runs && HasIndex(runs[tab].statements, index) && runs[tab].params.Some?
    && !runs[tab].running && runs[tab].rerunning.None?
  }

  predicate Matches(runs: Runs, recall: Recall) {
    recall.tab in runs && runs[recall.tab].count == recall.count
  }

  function Marked(runs: Runs, recall: Recall, rerunning: Option<nat>): Runs {
    if Matches(runs, recall) then runs[recall.tab := runs[recall.tab].(rerunning := rerunning)] else runs
  }

  function ApplyRerun(runs: Runs, recall: Recall, result: StatementResult): Runs {
    if !Matches(runs, recall) then runs
    else
      var run := runs[recall.tab];
      runs[recall.tab := run.(statements := AnsweredAt(run.statements, recall.index, result))]
  }
}
