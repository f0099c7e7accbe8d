/**
What a tab shows of a batch run, statement by statement, told from the frames it was sent: by the
last plan among them, and by the last frames since then that name the statement.
*/
module QueryRunsFrames {
  import opened Prelude
  import opened QueryRuns
  import opened QueryRunsSafety
  import opened QueryRunsLaws

  // ------------------------------------------------------------------ which frames count

  /** Frame `n` is a plan, and no later frame is. */
  predicate IsLastPlan(frames: seq<Frame>, n: nat) {
    n < |frames| && frames[n].Planned? && forall k :: n < k < |frames| ==> !frames[k].Planned?
  }

  predicate Reports(f: Frame, index: nat) {
    f.Finished? && f.result.index == index
  }

  /** The frame tells that statement `index` starts, or what became of it. */
  predicate Tells(f: Frame, index: nat) {
    (f.Started? && f.index == index) || Reports(f, index)
  }

  /** Frame `k` is the last one behind frame `n` that tells of the statement. */
  predicate LastTelling(frames: seq<Frame>, n: nat, index: nat, k: nat) {
    n < k < |frames| && Tells(frames[k], index) && forall i :: k < i < |frames| ==> !Tells(frames[i], index)
  }

  predicate LastReport(frames: seq<Frame>, n: nat, index: nat, k: nat) {
    n < k < |frames| && Reports(frames[k], index) && forall i :: k < i < |frames| ==> !Reports(frames[i], index)
  }

  predicate LastSummary(frames: seq<Frame>, n: nat, k: nat) {
    n < k < |frames| && frames[k].Done? && forall i :: k < i < |frames| ==> !frames[i].Done?
  }

  // ------------------------------------------------------------------ what they tell

  /** Waiting, until a frame names the statement; then what the last such frame says. */
  ghost predicate StateTold(frames: seq<Frame>, n: nat, s: StatementRun) {
    && ((forall k :: n < k < |frames| ==> !Tells(frames[k], s.index)) ==> s.state == Pending)
    && forall k: nat :: LastTelling(frames, n, s.index, k) ==>
         s.state == if frames[k].Started? then Running else frames[k].result.status
  }

  /** Nothing, until a frame reports on the statement; then what the last such frame reports. */
  ghost predicate ReportTold(frames: seq<Frame>, n: nat, s: StatementRun) {
    && ((forall k :: n < k < |frames| ==> !Reports(frames[k], s.index)) ==>
          s.elapsed.None? && s.outcome.None? && s.error.None?)
    && forall k: nat :: LastReport(frames, n, s.index, k) ==>
         var r := frames[k].result;
         s.elapsed == Some(r.elapsed) && s.outcome == r.outcome && s.error == r.error
  }

  /** The statement is the one of the plan, and stands as the frames behind frame `n` tell. */
  ghost predicate Told(frames: seq<Frame>, n: nat, plan: Plan, s: StatementRun) {
    && s.index == plan.index && s.sql == plan.sql && s.start == plan.start && s.end == plan.end
    && StateTold(frames, n, s) && ReportTold(frames, n, s)
  }

  /** The summary is that of the last such frame behind frame `n`, if there is one. */
  ghost predicate SummaryTold(frames: seq<Frame>, n: nat, summary: Option<Summary>) {
    && ((forall k :: n < k < |frames| ==> !frames[k].Done?) ==> summary.None?)
    && forall k: nat :: LastSummary(frames, n, k) ==> summary == Some(frames[k].summary)
  }

  /** All that a planned run amounts to. */
  ghost predicate AllTold(frames: seq<Frame>, n: nat, statements: seq<StatementRun>, summary: Option<Summary>)
    requires IsLastPlan(frames, n)
  {
    && |statements| == |frames[n].plans|
    && (forall i :: 0 <= i < |statements| ==> Told(frames, n, frames[n].plans[i], statements[i]))
    && SummaryTold(frames, n, summary)
  }

  // ------------------------------------------------------------------ one more frame

  lemma {:induction false} PlannedAllIs(plans: seq<Plan>)
    ensures |PlannedAll(plans)| == |plans|
    ensures forall i :: 0 <= i < |plans| ==> PlannedAll(plans)[i] == PlannedStatement(plans[i])
  {
    if plans != [] {
      PlannedAllIs(plans[1..]);
    }
  }

  lemma {:induction false} StartedAtIs(statements: seq<StatementRun>, index: nat)
    ensures var r := StartedAt(statements, index);
      && |r| == |statements|
      && forall k :: 0 <= k < |r| ==>
           r[k] == if statements[k].index == index then statements[k].(state := Running) else statements[k]
  {
    if statements != [] {
      StartedAtIs(statements[1..], index);
    }
  }

  /** What a frame that is no plan makes of one statement. */
  function Heard(s: StatementRun, f: Frame): StatementRun {
    match f
    case Started(index) => if s.index == index then s.(state := Running) else s
    case Finished(result) => if s.index == result.index then Answered(s, result) else s
    case _ => s
  }

  lemma AdvancedHears(p: Progress, f: Frame)
    requires !f.Planned?
    ensures var r := Advanced(p, f);
      && r.planned == p.planned && |r.statements| == |p.statements|
      && r.summary == (if f.Done? then Some(f.summary) else p.summary)
      && forall i :: 0 <= i < |p.statements| ==> r.statements[i] == Heard(p.statements[i], f)
  {
    match f
    case Started(index) => StartedAtIs(p.statements, index);
    case Finished(result) => AnsweredAtIs(p.statements, result.index, result);
    case _ =>
  }

  lemma LastTellingSnoc(frames: seq<Frame>, n: nat, index: nat, f: Frame, k: nat)
    requires n < |frames|
    ensures LastTelling(frames + [f], n, index, k) <==>
      if Tells(f, index) then k == |frames| else LastTelling(frames, n, index, k)
  {
    var all := frames + [f];
    assert all[|frames|] == f;
    forall i | 0 <= i < |frames| ensures all[i] == frames[i] {
    }
  }

  lemma LastReportSnoc(frames: seq<Frame>, n: nat, index: nat, f: Frame, k: nat)
    requires n < |frames|
    ensures LastReport(frames + [f], n, index, k) <==>
      if Reports(f, index) then k == |frames| else LastReport(frames, n, index, k)
  {
    var all := frames + [f];
    assert all[|frames|] == f;
    forall i | 0 <= i < |frames| ensures all[i] == frames[i] {
    }
  }

  lemma LastSummarySnoc(frames: seq<Frame>, n: nat, f: Frame, k: nat)
    requires n < |frames|
    ensures LastSummary(frames + [f], n, k) <==>
      if f.Done? then k == |frames| else LastSummary(frames, n, k)
  {
    var all := frames + [f];
    assert all[|frames|] == f;
    forall i | 0 <= i < |frames| ensures all[i] == frames[i] {
    }
  }

  lemma StateHeard(frames: seq<Frame>, n: nat, s: StatementRun, f: Frame)
    requires n < |frames| && StateTold(frames, n, s)
    ensures StateTold(frames + [f], n, Heard(s, f))
  {
    var all, r := frames + [f], Heard(s, f);
    forall k: nat | LastTelling(all, n, r.index, k)
      ensures r.state == if all[k].Started? then Running else all[k].result.status {
      LastTellingSnoc(frames, n, s.index, f, k);
      assert k < |frames| ==> all[k] == frames[k];
    }
    if forall k :: n < k < |all| ==> !Tells(all[k], r.index) {
      assert !Tells(all[|frames|], s.index);
      forall k | n < k < |frames| ensures !Tells(frames[k], s.index) {
        assert all[k] == frames[k];
      }
    }
  }

  lemma ReportHeard(frames: seq<Frame>, n: nat, s: StatementRun, f: Frame)
    requires n < |frames| && ReportTold(frames, n, s)
    ensures ReportTold(frames + [f], n, Heard(s, f))
  {
    var all, r := frames + [f], Heard(s, f);
    forall k: nat | LastReport(all, n, r.index, k)
      ensures r.elapsed == Some(all[k].result.elapsed) && r.outcome == all[k].result.outcome
      ensures r.error == all[k].result.error {
      LastReportSnoc(frames, n, s.index, f, k);
      assert k < |frames| ==> all[k] == frames[k];
    }
    if forall k :: n < k < |all| ==> !Reports(all[k], r.index) {
      assert !Reports(all[|frames|], s.index);
      forall k | n < k < |frames| ensures !Reports(frames[k], s.index) {
        assert all[k] == frames[k];
      }
    }
  }

  lemma SummaryHeard(frames: seq<Frame>, n: nat, summary: Option<Summary>, f: Frame)
    requires n < |frames| && SummaryTold(frames, n, summary)
    ensures SummaryTold(frames + [f], n, if f.Done? then Some(f.summary) else summary)
  {
    var all, later := frames + [f], if f.Done? then Some(f.summary) else summary;
    forall k: nat | LastSummary(all, n, k) ensures later == Some(all[k].summary) {
      LastSummarySnoc(frames, n, f, k);
      assert k < |frames| ==> all[k] == frames[k];
    }
    if forall k :: n < k < |all| ==> !all[k].Done? {
      assert !all[|frames|].Done?;
      forall k | n < k < |frames| ensures !frames[k].Done? {
        assert all[k] == frames[k];
      }
    }
  }

  lemma HeardAll(frames: seq<Frame>, n: nat, p: Progress, f: Frame)
    requires IsLastPlan(frames, n) && !f.Planned? && AllTold(frames, n, p.statements, p.summary)
    ensures IsLastPlan(frames + [f], n)
    ensures AllTold(frames + [f], n, Advanced(p, f).statements, Advanced(p, f).summary)
  {
    var all := frames + [f];
    assert all[n] == frames[n];
    AdvancedHears(p, f);
    SummaryHeard(frames, n, p.summary, f);
    forall i | 0 <= i < |p.statements| ensures Told(all, n, all[n].plans[i], Heard(p.statements[i], f)) {
      assert Told(frames, n, frames[n].plans[i], p.statements[i]);
      StateHeard(frames, n, p.statements[i], f);
      ReportHeard(frames, n, p.statements[i], f);
    }
  }

  // ------------------------------------------------------------------ all frames of a run

  function Plans(frames: seq<Frame>): set<nat> {
    set k | 0 <= k < |frames| && frames[k].Planned?
  }

  lemma {:induction false} PlannedCount(frames: seq<Frame>)
    ensures Fold(frames).planned == |Plans(frames)|
    decreases |frames|
  {
    if frames == [] {
      assert Plans(frames) == {};
    } else {
      var front := frames[..|frames| - 1];
      PlannedCount(front);
      assert Plans(frames) == Plans(front) + (if Last(frames).Planned? then {|front|} else {});
    }
  }

  /**
  Whatever frames a run is sent: since the last plan among them its statements are those of the plan, each
  waiting until a frame names it, running if the last frame that does says it starts, and else as that frame
  reports it.
  */
  lemma {:induction false} FoldExactly(frames: seq<Frame>, n: nat)
    requires IsLastPlan(frames, n)
    ensures AllTold(frames, n, Fold(frames).statements, Fold(frames).summary)
    decreases |frames|
  {
    var front, last := frames[..|frames| - 1], Last(frames);
    if n == |frames| - 1 {
      PlannedAllIs(last.plans);
    } else {
      assert frames == front + [last];
      FoldExactly(front, n);
      HeardAll(front, n, Fold(front), last);
    }
  }

  /** Without a plan there is nothing to show. */
  lemma {:induction false} NoPlanShowsNothing(frames: seq<Frame>)
    requires forall k :: 0 <= k < |frames| ==> !frames[k].Planned?
    ensures Fold(frames).planned == 0 && Fold(frames).statements == []
    decreases |frames|
  {
    if frames != [] {
      NoPlanShowsNothing(frames[..|frames| - 1]);
      AdvancedHears(Fold(frames[..|frames| - 1]), Last(frames));
    }
  }

  // ------------------------------------------------------------------ what tabs show

  /**
  However events are interleaved, as long as no closed tab is started or rerun again: a tab whose run on screen
  has a plan shows every statement of the last one as that run's own frames tell.
  */
  lemma ShowsWhatFramesTell(events: seq<Event>, tab: TabId, n: nat)
    requires AllFresh(EMPTY, events) && AllOnce(EMPTY, events)
    requires var w := Run(EMPTY, events);
      tab in w.runs && w.runs[tab].runId.Some? && IsLastPlan(Sent(w, w.runs[tab].runId.value), n)
    ensures var w := Run(EMPTY, events);
      AllTold(Sent(w, w.runs[tab].runId.value), n, w.runs[tab].statements, w.runs[tab].summary)
  {
    var w := Run(EMPTY, events);
    var frames := Sent(w, w.runs[tab].runId.value);
    ShowsItsOwnFrames(events);
    assert ShowsOwn(w, tab, w.runs[tab]);
    PlannedCount(frames);
    assert n in Plans(frames);
    FoldExactly(frames, n);
  }

  /** The statement was never named, or the last frame that names it says it starts: no answer will come. */
  ghost predicate Unanswered(frames: seq<Frame>, n: nat, index: nat) {
    forall k: nat :: LastTelling(frames, n, index, k) ==>
      frames[k].Started? || frames[k].result.status == Pending || frames[k].result.status == Running
  }

  /** The statement of the plan once its run is broken: skipped if it is unanswered, else as it was reported. */
  ghost predicate ToldBroken(frames: seq<Frame>, n: nat, plan: Plan, s: StatementRun) {
    && s.index == plan.index && s.sql == plan.sql && s.start == plan.start && s.end == plan.end
    && ReportTold(frames, n, s)
    && (Unanswered(frames, n, plan.index) ==> s.state == Skipped)
    && forall k: nat :: LastTelling(frames, n, plan.index, k) && !Unanswered(frames, n, plan.index) ==>
         s.state == frames[k].result.status
  }

  /** Of the frames that tell of a statement, one is the last. */
  lemma {:induction false} LastTellingIs(frames: seq<Frame>, n: nat, index: nat, k: nat) returns (last: nat)
    requires n < k < |frames| && Tells(frames[k], index)
    ensures LastTelling(frames, n, index, last)
    decreases |frames| - k
  {
    if i :| k < i < |frames| && Tells(frames[i], index) {
      last := LastTellingIs(frames, n, index, i);
    } else {
      last := k;
    }
  }

  /** Whether a statement waits or runs, told from the frames. */
  lemma StateOrUnanswered(frames: seq<Frame>, n: nat, s: StatementRun)
    requires StateTold(frames, n, s)
    ensures s.state == Pending || s.state == Running <==> Unanswered(frames, n, s.index)
  {
    if k :| n < k < |frames| && Tells(frames[k], s.index) {
      var last := LastTellingIs(frames, n, s.index, k);
    }
  }

  lemma SkippedTold(frames: seq<Frame>, n: nat, plan: Plan, s: StatementRun)
    requires Told(frames, n, plan, s)
    ensures ToldBroken(frames, n, plan, if s.state == Pending || s.state == Running then s.(state := Skipped) else s)
  {
    StateOrUnanswered(frames, n, s);
  }

  ghost predicate AllToldBroken(frames: seq<Frame>, n: nat, statements: seq<StatementRun>)
    requires IsLastPlan(frames, n)
  {
    && |statements| == |frames[n].plans|
    && forall i :: 0 <= i < |statements| ==> ToldBroken(frames, n, frames[n].plans[i], statements[i])
  }

  lemma AllSkippedTold(frames: seq<Frame>, n: nat)
    requires IsLastPlan(frames, n)
    ensures AllToldBroken(frames, n, SkippedRest(Fold(frames).statements))
  {
    var p := Fold(frames).statements;
    FoldExactly(frames, n);
    SkippedRestIs(p);
    forall i | 0 <= i < |p| ensures ToldBroken(frames, n, frames[n].plans[i], SkippedRest(p)[i]) {
      SkippedTold(frames, n, frames[n].plans[i], p[i]);
    }
  }

  /**
  When a planned run breaks, exactly the statements without an answer become skipped; every other one stays as its
  last report left it, and all keep their place and text.
  */
  lemma BrokenRunSkips(w: World, runId: RunId, error: RunError, n: nat)
    requires Inv(w) && OnScreen(w, runId) && IsLastPlan(Sent(w, runId), n)
    ensures var call := w.flights[runId].call;
      var runs := Failing(w.runs, call, error);
      call.tab in runs && AllToldBroken(Sent(w, runId), n, runs[call.tab].statements)
  {
    var frames := Sent(w, runId);
    PlannedCount(frames);
    assert n in Plans(frames);
    BrokenRunEnds(w, runId, error);
    AllSkippedTold(frames, n);
  }
}
