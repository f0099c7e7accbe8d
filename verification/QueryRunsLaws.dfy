/**
What holds over whole runs of events, what a refused start undoes, and runs in which the tab of a
closed run is started again.
*/
module QueryRunsLaws {
  import opened Prelude
  import opened QueryRuns
  import opened QueryRunsSafety

  // ------------------------------------------------------------------ whole runs

  function Run(w: World, events: seq<Event>): World
    decreases |events|
  {
    if events == [] then w else Run(Do(w, events[0]), events[1..])
  }

  /** Ids are never given twice. */
  predicate AllFresh(w: World, events: seq<Event>)
    decreases |events|
  {
    events == [] || (Fresh(w, events[0]) && AllFresh(Do(w, events[0]), events[1..]))
  }

  /** No event is one of those that spoil the invariant. */
  ghost predicate NoneSpoils(w: World, events: seq<Event>)
    decreases |events|
  {
    events == [] || (!Spoils(w, events[0]) && NoneSpoils(Do(w, events[0]), events[1..]))
  }

  lemma EmptyInv()
    ensures Inv(EMPTY)
  {
  }

  lemma {:induction false} RunKeepsInv(w: World, events: seq<Event>)
    requires Inv(w) && AllFresh(w, events) && NoneSpoils(w, events)
    ensures Inv(Run(w, events))
    decreases |events|
  {
    if events != [] {
      DoKeepsInvExactly(w, events[0]);
      RunKeepsInv(Do(w, events[0]), events[1..]);
    }
  }

  /** The invariant holds all along a run if and only if no event of it is one of those that spoil it. */
  lemma {:induction false} RunKeepsInvExactly(w: World, events: seq<Event>)
    requires Inv(w) && AllFresh(w, events)
    ensures (forall n :: 0 <= n <= |events| ==> Inv(Run(w, events[..n]))) <==> NoneSpoils(w, events)
    decreases |events|
  {
    if events != [] {
      var v, rest := Do(w, events[0]), events[1..];
      DoKeepsInvExactly(w, events[0]);
      assert forall n :: 0 < n <= |events| ==> Run(w, events[..n]) == Run(v, rest[..n - 1]) by {
        forall n | 0 < n <= |events| ensures Run(w, events[..n]) == Run(v, rest[..n - 1]) {
          assert events[..n][1..] == rest[..n - 1];
        }
      }
      if Inv(v) {
        RunKeepsInvExactly(v, rest);
        PrefixesShift(w, events);
      } else {
        assert Run(w, events[..1]) == Run(v, rest[..0]) == v;
      }
    }
  }

  lemma PrefixesShift(w: World, events: seq<Event>)
    requires Inv(w) && events != []
    ensures (forall n :: 0 <= n <= |events| ==> Inv(Run(w, events[..n]))) <==>
      (forall n :: 0 <= n < |events| ==> Inv(Run(Do(w, events[0]), events[1..][..n])))
  {
    forall n | 0 < n <= |events| ensures Run(w, events[..n]) == Run(Do(w, events[0]), events[1..][..n - 1]) {
      assert events[..n][1..] == events[1..][..n - 1];
    }
    if forall n :: 0 <= n <= |events| ==> Inv(Run(w, events[..n])) {
      forall n | 0 <= n < |events| ensures Inv(Run(Do(w, events[0]), events[1..][..n])) {
        assert Inv(Run(w, events[..n + 1]));
      }
    }
  }

  // ------------------------------------------------------------------ tabs that are closed for good

  /** A tab that was closed is neither started nor rerun: query tabs never come back under their id. */
  predicate AllOnce(w: World, events: seq<Event>)
    decreases |events|
  {
    events == [] || (Once(w, events[0]) && AllOnce(Do(w, events[0]), events[1..]))
  }

  predicate Once(w: World, e: Event) {
    e.Start? || e.Rerun? ==> Age(w, e.tab) == 0
  }

  /** Every call began before its tab was closed, and a closed tab runs nothing. */
  ghost predicate BornFirst(w: World) {
    && (forall runId :: runId in w.flights ==> w.flights[runId].born == 0)
    && (forall id :: id in w.reflights ==> w.reflights[id].born == 0)
    && (forall tab :: tab in w.runs && Age(w, tab) > 0 ==> w.runs[tab].runId.None?)
  }

  lemma OnceIsHarmless(w: World, e: Event)
    requires Inv(w) && BornFirst(w) && Fresh(w, e) && Once(w, e)
    ensures !Spoils(w, e)
  {
    if LateRefusal(w, e) {
      var tab := w.flights[e.runId].call.tab;
      assert FlightInv(w, e.runId);
      if tab in w.runs {
        assert EntryInv(w, tab, w.runs[tab]);
      }
    }
    if e.DeliverRerun? && Overwrites(w, e.id, e.frame) {
      var tab := w.reflights[e.id].recall.tab;
      assert EntryInv(w, tab, w.runs[tab]);
      assert ReflightInv(w, w.reflights[e.id]);
      OwnRerunMisses(w, e.id);
    }
  }

  lemma OnceKeepsBornFirst(w: World, e: Event)
    requires Inv(w) && BornFirst(w) && Fresh(w, e) && Once(w, e)
    ensures BornFirst(Do(w, e))
  {
    if e.Fail? && Going(w, e.runId) {
      FailedIsBornFirst(w, e.runId, e.error);
    } else if e.Start? {
      StartedIsBornFirst(w, e);
    } else if e.DeliverRerun? && e.id in w.reflights && e.frame.Finished? {
      AnsweredIsBornFirst(w, w.reflights[e.id].recall, e.frame.result);
    } else if e.Deliver? && e.runId in w.flights {
      DeliveredIsBornFirst(w, e.runId, e.frame);
    }
  }

  lemma DeliveredIsBornFirst(w: World, runId: RunId, frame: Frame)
    requires BornFirst(w) && runId in w.flights
    ensures BornFirst(DoDeliver(w, runId, frame))
  {
  }

  lemma AnsweredIsBornFirst(w: World, recall: Recall, result: StatementResult)
    requires Inv(w) && BornFirst(w)
    ensures BornFirst(DoAnswer(w, recall, result))
  {
    if Matches(w.runs, recall) {
      AnswerShape(w, recall, result);
    }
  }

  lemma StartedIsBornFirst(w: World, e: Event)
    requires BornFirst(w) && e.Start? && Age(w, e.tab) == 0
    ensures BornFirst(DoStart(w, e))
  {
  }

  lemma FailedIsBornFirst(w: World, runId: RunId, error: RunError)
    requires Inv(w) && BornFirst(w) && Going(w, runId)
    ensures BornFirst(Do(w, Event.Fail(runId, error)))
  {
    assert FlightInv(w, runId);
  }

  lemma {:induction false} ClosedForGood(w: World, events: seq<Event>)
    requires Inv(w) && BornFirst(w) && AllFresh(w, events) && AllOnce(w, events)
    ensures NoneSpoils(w, events) && Inv(Run(w, events)) && BornFirst(Run(w, events))
    decreases |events|
  {
    if events != [] {
      OnceIsHarmless(w, events[0]);
      OnceKeepsBornFirst(w, events[0]);
      DoKeepsInvExactly(w, events[0]);
      ClosedForGood(Do(w, events[0]), events[1..]);
    }
  }

  /**
  However frames of several runs, refusals, reruns and closed tabs are interleaved: a tab whose
  current run has been planned shows exactly what that run's own frames amount to, and what is on
  screen is what the tab shows.
  */
  lemma ShowsItsOwnFrames(events: seq<Event>)
    requires AllFresh(EMPTY, events) && AllOnce(EMPTY, events)
    ensures OwnFrames(Run(EMPTY, events))
  {
    EmptyInv();
    ClosedForGood(EMPTY, events);
    InvShowsOwn(Run(EMPTY, events));
  }

  /** While a tab stays open at most one start is in flight for it, and it is the one on screen. */
  lemma OneStartInFlight(events: seq<Event>, a: RunId, b: RunId)
    requires AllFresh(EMPTY, events) && AllOnce(EMPTY, events)
    ensures var w := Run(EMPTY, events);
      Going(w, a) && Going(w, b) && w.flights[a].call.tab == w.flights[b].call.tab ==>
      Age(w, w.flights[a].call.tab) == 0 ==>
      a == b && Current(w.runs, w.flights[a].call.tab, a)
  {
    EmptyInv();
    ClosedForGood(EMPTY, events);
    var w := Run(EMPTY, events);
    if Going(w, a) && Going(w, b) {
      assert FlightInv(w, a) && FlightInv(w, b);
    }
  }

  /**
  Nothing that an ended, superseded or forgotten run still sends or does changes any tab, a refusal
  excepted; and that changes nothing if and only if the tab shows what it showed when the run began.
  */
  lemma LateFramesChangeNothing(w: World, runId: RunId, frame: Frame, summary: Summary, error: RunError)
    requires Inv(w) && runId in w.flights && !OnScreen(w, runId)
    ensures var call := w.flights[runId].call;
      && ApplyFrame(w.runs, call, frame) == w.runs
      && Succeeded(w.runs, call, summary) == w.runs
      && (error != Unconfirmed ==> Failing(w.runs, call, error) == w.runs)
      && (Failing(w.runs, call, Unconfirmed) == w.runs <==> Lookup(w.runs, call.tab) == call.previous)
  {
    EndUnseenKeeps(w, runId);
    assert FlightInv(w, runId);
    var call := w.flights[runId].call;
    if call.previous.Some? {
      assert w.runs[call.tab := call.previous.value][call.tab] == call.previous.value;
    } else {
      assert call.tab !in w.runs - {call.tab};
    }
  }

  // ------------------------------------------------------------------ what a refused start undoes

  lemma {:induction false} SkippedRestIs(statements: seq<StatementRun>)
    ensures |SkippedRest(statements)| == |statements|
    ensures forall k :: 0 <= k < |statements| ==>
      SkippedRest(statements)[k] ==
        if statements[k].state == Pending || statements[k].state == Running then statements[k].(state := Skipped)
        else statements[k]
  {
    if statements != [] {
      SkippedRestIs(statements[1..]);
    }
  }

  /** A run that breaks leaves no statement waiting, keeps every answer that came in, and lets the tab start again. */
  lemma BrokenRunEnds(w: World, runId: RunId, error: RunError)
    requires Inv(w) && OnScreen(w, runId) && (error != Unconfirmed || Fold(Sent(w, runId)).planned > 0)
    ensures var call := w.flights[runId].call;
      var runs := Failing(w.runs, call, error);
      && call.tab in runs && MayStart(runs, call.tab) && runs[call.tab].fatal == Some(error)
      && runs[call.tab].statements ==
           if Fold(Sent(w, runId)).planned == 0 then [] else SkippedRest(Fold(Sent(w, runId)).statements)
  {
    var call := w.flights[runId].call;
    assert FlightInv(w, runId) && EntryInv(w, call.tab, w.runs[call.tab]);
  }

  /**
  A start is refused while it is on screen and nothing of it is planned, whatever happened since it
  began: the tab shows again exactly what it showed before, and no other tab changes.
  */
  lemma RefusalRestores(w: World, runId: RunId)
    requires Inv(w) && OnScreen(w, runId) && Fold(Sent(w, runId)).planned == 0
    ensures var call := w.flights[runId].call;
      Do(w, Event.Fail(runId, Unconfirmed)).runs == WithEntry(w.runs, call.tab, call.previous)
  {
    var call := w.flights[runId].call;
    assert FlightInv(w, runId) && EntryInv(w, call.tab, w.runs[call.tab]);
    RefusedIsPrevious(w, runId);
  }

  /** So a start that is refused before anything else happens leaves the store as it was. */
  lemma RefusedStartUndone(w: World, e: Event)
    requires Inv(w) && e.Start? && Fresh(w, e)
    ensures Do(Do(w, e), Event.Fail(e.runId, Unconfirmed)).runs == w.runs
  {
    if MayStart(w.runs, e.tab) {
      var v := Do(w, e);
      DoKeepsInvExactly(w, e);
      assert Sent(v, e.runId) == [] && Fold([]).planned == 0;
      RefusalRestores(v, e.runId);
      assert WithEntry(v.runs, e.tab, Lookup(w.runs, e.tab)) == w.runs;
    }
  }

  /** The last answer to a statement, if one came in. */
  function LastAnswer(answers: seq<Answer>, index: nat): Option<StatementResult> {
    if answers == [] then None
    else
      var last := Last(answers);
      if last.index == index then Some(last.result) else LastAnswer(answers[..|answers| - 1], index)
  }

  function WithAnswer(s: StatementRun, answer: Option<StatementResult>): StatementRun {
    match answer case None => s case Some(result) => Answered(s, result)
  }

  lemma {:induction false} AnsweredAtIs(statements: seq<StatementRun>, index: nat, result: StatementResult)
    ensures var r := AnsweredAt(statements, index, result);
      && |r| == |statements|
      && forall k :: 0 <= k < |r| ==>
           r[k] == if statements[k].index == index then Answered(statements[k], result) else statements[k]
  {
    if statements != [] {
      AnsweredAtIs(statements[1..], index, result);
    }
  }

  /** However many answers come in, each statement holds the last one to it. */
  lemma {:induction false} AnsweredAllIs(statements: seq<StatementRun>, answers: seq<Answer>)
    ensures var r := AnsweredAll(statements, answers);
      && |r| == |statements|
      && forall k :: 0 <= k < |r| ==> r[k] == WithAnswer(statements[k], LastAnswer(answers, statements[k].index))
    decreases |answers|
  {
    if answers != [] {
      var last, before := Last(answers), AnsweredAll(statements, answers[..|answers| - 1]);
      AnsweredAllIs(statements, answers[..|answers| - 1]);
      AnsweredAtIs(before, last.index, last.result);
    }
  }

  /**
  A start that has sent nothing is refused. Answers of reruns are lost if and only if some statement
  got one since the start and the last one it got is news: those are in the tab before the refusal
  and not after it.
  */
  lemma AnswersLostExactly(w: World, runId: RunId)
    requires Inv(w) && OnScreen(w, runId) && Sent(w, runId) == [] && w.flights[runId].call.previous.Some?
    ensures var tab, before := w.flights[runId].call.tab, StatementsBefore(w.flights[runId].call);
      var after := Do(w, Event.Fail(runId, Unconfirmed)).runs;
      && tab in w.runs && tab in after && after[tab].statements == before
      && |w.runs[tab].statements| == |before|
      && (forall k :: 0 <= k < |before| ==>
            w.runs[tab].statements[k] == WithAnswer(before[k], LastAnswer(Answers(w, runId), before[k].index)))
      && (w.runs[tab].statements != after[tab].statements <==>
            exists k :: 0 <= k < |before| &&
              WithAnswer(before[k], LastAnswer(Answers(w, runId), before[k].index)) != before[k])
  {
    var call := w.flights[runId].call;
    assert FlightInv(w, runId) && EntryInv(w, call.tab, w.runs[call.tab]);
    RefusalRestores(w, runId);
    AnsweredAllIs(StatementsBefore(call), Answers(w, runId));
  }

  // ------------------------------------------------------------------ marks of statements being run again

  /** Some rerun that remembers this has not ended. */
  predicate Ongoing(w: World, recall: Recall) {
    exists id :: id in w.reflights && id !in w.over && w.reflights[id].recall == recall
  }

  /** The mark of a rerun in this entry is that of a rerun still going on. */
  ghost predicate MarkTrue(w: World, tab: TabId, run: TabRun) {
    run.rerunning.Some? ==> Ongoing(w, Recall(tab, run.rerunning.value, run.count))
  }

  ghost predicate MarksTrue(w: World) {
    forall tab :: tab in w.runs ==> MarkTrue(w, tab, w.runs[tab])
  }

  /** The refusal of a start that began while a statement was being run again, and that rerun has ended since. */
  ghost predicate RevivesEnded(w: World, e: Event) {
    && e.Fail? && e.error == Unconfirmed && Going(w, e.runId)
    && var call := w.flights[e.runId].call;
    !PlanArrived(w.runs, call) && call.previous.Some? && !MarkTrue(w, call.tab, call.previous.value)
  }

  lemma EndedMarks(w: World, id: nat)
    requires Inv(w) && MarksTrue(w) && id in w.reflights && id !in w.over
    ensures MarksTrue(Do(w, EndRerun(id)))
  {
    var v, recall := Do(w, EndRerun(id)), w.reflights[id].recall;
    forall tab | tab in v.runs ensures MarkTrue(v, tab, v.runs[tab]) {
      var run := v.runs[tab];
      if run.rerunning.Some? {
        assert run == w.runs[tab] && MarkTrue(w, tab, run);
        var i :| i in w.reflights && i !in w.over &&
          w.reflights[i].recall == Recall(tab, run.rerunning.value, run.count);
        assert i in v.reflights && i !in v.over;
      }
    }
  }

  lemma MarkKept(w: World, v: World, tab: TabId, run: TabRun)
    requires MarkTrue(w, tab, run) && w.over == v.over
    requires forall id :: id in w.reflights ==> id in v.reflights && v.reflights[id] == w.reflights[id]
    ensures MarkTrue(v, tab, run)
  {
    if run.rerunning.Some? {
      var recall := Recall(tab, run.rerunning.value, run.count);
      var id :| id in w.reflights && id !in w.over && w.reflights[id].recall == recall;
      assert id in v.reflights && id !in v.over && v.reflights[id].recall == recall;
    }
  }

  lemma RerunMarks(w: World, e: Event)
    requires Inv(w) && MarksTrue(w) && e.Rerun? && Fresh(w, e)
    ensures MarksTrue(Do(w, e))
  {
    if MayRerun(w.runs, e.tab, e.index) {
      var v := Do(w, e);
      forall tab | tab in v.runs ensures MarkTrue(v, tab, v.runs[tab]) {
        if tab == e.tab {
          assert e.id in v.reflights && e.id !in v.over
            && v.reflights[e.id].recall == Recall(tab, e.index, v.runs[tab].count);
        } else {
          MarkKept(w, v, tab, w.runs[tab]);
        }
      }
    }
  }

  /** An event that keeps the reruns and, where a tab is marked, which results it shows. */
  lemma OtherMarks(w: World, e: Event)
    requires Inv(w) && MarksTrue(w) && Fresh(w, e) && !RevivesEnded(w, e) && !e.Rerun? && !e.EndRerun?
    ensures MarksTrue(Do(w, e))
  {
    var v := Do(w, e);
    SameReruns(w, e);
    forall tab | tab in v.runs ensures MarkTrue(v, tab, v.runs[tab]) {
      if v.runs[tab].rerunning.Some? {
        MarkComesFrom(w, e, tab);
        if tab in w.runs && v.runs[tab].rerunning == w.runs[tab].rerunning && v.runs[tab].count == w.runs[tab].count {
          MarkKept(w, v, tab, w.runs[tab]);
        } else {
          MarkKept(w, v, tab, w.flights[e.runId].call.previous.value);
        }
      }
    }
  }

  lemma SameReruns(w: World, e: Event)
    requires !e.Rerun? && !e.EndRerun?
    ensures Do(w, e).over == w.over && Do(w, e).reflights == w.reflights
  {
  }

  /** A mark was there before the event, of the same results, or it is put back by a refusal. */
  lemma MarkComesFrom(w: World, e: Event, tab: TabId)
    requires Inv(w) && !e.Rerun? && !e.EndRerun? && tab in Do(w, e).runs && Do(w, e).runs[tab].rerunning.Some?
    ensures var run := Do(w, e).runs[tab];
      || (tab in w.runs && run.rerunning == w.runs[tab].rerunning && run.count == w.runs[tab].count)
      || (e.Fail? && e.error == Unconfirmed && Going(w, e.runId) && !PlanArrived(w.runs, w.flights[e.runId].call)
          && tab == w.flights[e.runId].call.tab && w.flights[e.runId].call.previous == Some(run))
  {
    if e.Fail? {
      if Going(w, e.runId) {
        FailedMark(w, e, tab);
      }
    } else {
      MarkStays(w, e, tab);
    }
  }

  lemma MarkStays(w: World, e: Event, tab: TabId)
    requires Inv(w) && !e.Rerun? && !e.EndRerun? && !e.Fail?
    requires tab in Do(w, e).runs && Do(w, e).runs[tab].rerunning.Some?
    ensures var run := Do(w, e).runs[tab];
      tab in w.runs && run.rerunning == w.runs[tab].rerunning && run.count == w.runs[tab].count
  {
    if tab in w.runs {
      assert EntryInv(w, tab, w.runs[tab]);
    }
    if e.Deliver? && e.runId in w.flights {
      FrameMark(w, w.flights[e.runId].call, e.frame, tab);
    } else if e.DeliverRerun? && e.id in w.reflights && e.frame.Finished? {
      AnswerMark(w, w.reflights[e.id].recall, e.frame.result, tab);
    }
  }

  lemma FrameMark(w: World, call: Call, frame: Frame, tab: TabId)
    requires Inv(w) && tab in ApplyFrame(w.runs, call, frame) && ApplyFrame(w.runs, call, frame)[tab].rerunning.Some?
    ensures tab in w.runs && ApplyFrame(w.runs, call, frame)[tab] == w.runs[tab]
  {
    if tab in w.runs {
      assert EntryInv(w, tab, w.runs[tab]);
    }
  }

  lemma AnswerMark(w: World, recall: Recall, result: StatementResult, tab: TabId)
    requires tab in DoAnswer(w, recall, result).runs
    ensures tab in w.runs && var run := DoAnswer(w, recall, result).runs[tab];
      run.rerunning == w.runs[tab].rerunning && run.count == w.runs[tab].count
  {
  }

  lemma FailedMark(w: World, e: Event, tab: TabId)
    requires Inv(w) && e.Fail? && Going(w, e.runId) && tab in Do(w, e).runs && Do(w, e).runs[tab].rerunning.Some?
    ensures var run := Do(w, e).runs[tab];
      || (tab in w.runs && run == w.runs[tab])
      || (e.error == Unconfirmed && !PlanArrived(w.runs, w.flights[e.runId].call)
          && tab == w.flights[e.runId].call.tab && w.flights[e.runId].call.previous == Some(run))
  {
    if tab in w.runs {
      assert EntryInv(w, tab, w.runs[tab]);
    }
    RefusedIsPrevious(w, e.runId);
  }

  /**
  A tab says that a statement is being run again, though no such rerun is going on, if and only if a
  refusal has put back the mark of a rerun that ended while the refused start was waiting.
  */
  lemma MarksTrueExactly(w: World, e: Event)
    requires Inv(w) && MarksTrue(w) && Fresh(w, e)
    ensures MarksTrue(Do(w, e)) <==> !RevivesEnded(w, e)
  {
    if RevivesEnded(w, e) {
      var call := w.flights[e.runId].call;
      RefusedIsPrevious(w, e.runId);
      var v := Do(w, e);
      assert v.runs[call.tab] == call.previous.value;
      if MarkTrue(v, call.tab, call.previous.value) {
        MarkKept(v, w, call.tab, call.previous.value);
      }
    } else if e.Rerun? {
      RerunMarks(w, e);
    } else if e.EndRerun? {
      if e.id in w.reflights && e.id !in w.over {
        EndedMarks(w, e.id);
      }
    } else {
      OtherMarks(w, e);
    }
  }

  // ------------------------------------------------------------------ runs in which things go wrong

  const PARAMS := RunParams(0, "", [], None)

  const PLANS: seq<Plan> := [Plan(0, "", 0, 0)]

  const ANSWER := StatementResult(0, Success, 0, None, None)

  lemma Stepped(w: World, events: seq<Event>, e: Event)
    ensures Run(w, events + [e]) == Do(Run(w, events), e)
    decreases |events|
  {
    if events == [] {
      assert [e][1..] == [];
    } else {
      assert (events + [e])[1..] == events[1..] + [e];
      Stepped(Do(w, events[0]), events[1..], e);
    }
  }

  lemma FreshSteps(w: World, events: seq<Event>, e: Event)
    requires AllFresh(w, events) && Fresh(Run(w, events), e)
    ensures AllFresh(w, events + [e])
    decreases |events|
  {
    if events == [] {
      assert [e][1..] == [];
    } else {
      assert (events + [e])[1..] == events[1..] + [e];
      FreshSteps(Do(w, events[0]), events[1..], e);
    }
  }

  /** A run from the empty store, and the world it has led to. */
  ghost predicate LeadsTo(events: seq<Event>, w: World) {
    AllFresh(EMPTY, events) && Run(EMPTY, events) == w && Inv(w)
  }

  lemma NothingYet()
    ensures LeadsTo([], EMPTY)
  {
    EmptyInv();
  }

  lemma Then(events: seq<Event>, w: World, e: Event)
    requires LeadsTo(events, w) && Fresh(w, e) && !Spoils(w, e)
    ensures LeadsTo(events + [e], Do(w, e))
  {
    FreshSteps(EMPTY, events, e);
    Stepped(EMPTY, events, e);
    DoKeepsInvExactly(w, e);
  }

  /** The last event breaks what the tabs show. */
  lemma ThenBreaks(events: seq<Event>, w: World, e: Event)
    requires LeadsTo(events, w) && Fresh(w, e) && Breaks(w, e)
    ensures AllFresh(EMPTY, events + [e]) && !OwnFrames(Run(EMPTY, events + [e]))
  {
    FreshSteps(EMPTY, events, e);
    Stepped(EMPTY, events, e);
    BreaksExactly(w, e);
  }

  /** A script has been run in tab 0, and has finished. */
  const RAN: seq<Event> :=
    [] + [Event.Start(0, PARAMS, 0)] + [Event.Deliver(0, Planned(PLANS))] + [Event.Succeed(0, 0)]

  const CALL := Call(0, 0, PARAMS, None)

  const FINISHED: TabRun :=
    TabRun(1, None, false, false, None, "", Some(PARAMS), [PlannedStatement(PLANS[0])], Some(0), None)

  lemma RanIs() returns (w: World)
    ensures LeadsTo(RAN, w)
    ensures w.runs == map[0 := FINISHED] && w.flights == map[0 := Flight(CALL, 0)] && w.live == {}
    ensures w.sent.Keys == {0} && w.answers == map[] && w.reflights == map[] && w.over == {} && w.forgotten == map[]
  {
    var a := Do(EMPTY, Event.Start(0, PARAMS, 0));
    var b := Do(a, Event.Deliver(0, Planned(PLANS)));
    w := Do(b, Event.Succeed(0, 0));
    assert PlannedAll(PLANS) == [PlannedStatement(PLANS[0])] by {
      assert PLANS[1..] == [];
    }
    NothingYet();
    Then([], EMPTY, Event.Start(0, PARAMS, 0));
    Then([] + [Event.Start(0, PARAMS, 0)], a, Event.Deliver(0, Planned(PLANS)));
    Then([] + [Event.Start(0, PARAMS, 0)] + [Event.Deliver(0, Planned(PLANS))], b, Event.Succeed(0, 0));
  }

  const RERUNNING: seq<Event> := RAN + [Rerun(0, 0, 0)]

  const MARKED: TabRun := FINISHED.(rerunning := Some(0))

  /** Its statement is being run again. */
  lemma RerunningIs() returns (w: World)
    ensures LeadsTo(RERUNNING, w)
    ensures w.runs == map[0 := MARKED] && w.flights == map[0 := Flight(CALL, 0)] && w.live == {}
    ensures w.sent.Keys == {0} && w.answers == map[] && w.over == {} && w.forgotten == map[]
    ensures w.reflights == map[0 := Reflight(Recall(0, 0, 1), 0)]
  {
    w := RanIs();
    assert w.runs[0].statements[0].index == 0;
    Then(RAN, w, Rerun(0, 0, 0));
    w := Do(w, Rerun(0, 0, 0));
  }

  /**
  A tab is closed while its statement is being run again and while another run of it waits for its
  transaction to begin; that run then starts. The rerun's answer goes into the new run.
  */
  lemma LateAnswerIsReached()
    ensures var events := RERUNNING + [Event.Forget(0)] + [Event.Start(0, PARAMS, 1)]
        + [Event.Deliver(1, Planned(PLANS))] + [DeliverRerun(0, Finished(ANSWER))];
      AllFresh(EMPTY, events) && !OwnFrames(Run(EMPTY, events))
  {
    var w := RerunningIs();
    var events := RERUNNING;
    Then(events, w, Event.Forget(0));
    events, w := events + [Event.Forget(0)], Do(w, Event.Forget(0));
    Then(events, w, Event.Start(0, PARAMS, 1));
    events, w := events + [Event.Start(0, PARAMS, 1)], Do(w, Event.Start(0, PARAMS, 1));
    FoldSnoc([], Planned(PLANS));
    Then(events, w, Event.Deliver(1, Planned(PLANS)));
    events, w := events + [Event.Deliver(1, Planned(PLANS))], Do(w, Event.Deliver(1, Planned(PLANS)));
    assert Sent(w, 1) == [] + [Planned(PLANS)];
    AnsweredAtIs(w.runs[0].statements, 0, ANSWER);
    assert w.runs[0].statements[0].state == Pending;
    ThenBreaks(events, w, DeliverRerun(0, Finished(ANSWER)));
  }

  /** A start of a tab that was closed is refused after another one that was waiting: that one is no longer shown. */
  lemma LateRefusalIsReached()
    ensures var events := [] + [Event.Start(0, PARAMS, 0)] + [Event.Forget(0)] + [Event.Start(0, PARAMS, 1)]
        + [Event.Fail(0, Unconfirmed)];
      AllFresh(EMPTY, events) && !OwnFrames(Run(EMPTY, events))
  {
    NothingYet();
    var events: seq<Event>, w := [], EMPTY;
    Then(events, w, Event.Start(0, PARAMS, 0));
    events, w := events + [Event.Start(0, PARAMS, 0)], Do(w, Event.Start(0, PARAMS, 0));
    Then(events, w, Event.Forget(0));
    events, w := events + [Event.Forget(0)], Do(w, Event.Forget(0));
    Then(events, w, Event.Start(0, PARAMS, 1));
    events, w := events + [Event.Start(0, PARAMS, 1)], Do(w, Event.Start(0, PARAMS, 1));
    ThenBreaks(events, w, Event.Fail(0, Unconfirmed));
  }

  const WAITING: seq<Event> := RERUNNING + [Event.Start(0, PARAMS, 1)]

  const ANSWERED: seq<Event> := WAITING + [DeliverRerun(0, Finished(ANSWER))] + [EndRerun(0)]

  /** A new start of the tab waits, and nothing of it has come in. */
  ghost predicate StillWaits(w: World) {
    && w.runs.Keys == {0} && w.runs[0].count == 1 && w.runs[0].runId == Some(1) && w.live == {1}
    && 1 in w.flights && w.flights[1] == Flight(Call(0, 1, PARAMS, Some(MARKED)), 0) && w.forgotten == map[]
    && w.reflights == map[0 := Reflight(Recall(0, 0, 1), 0)] && Sent(w, 1) == []
  }

  lemma WaitingIs() returns (w: World)
    ensures LeadsTo(WAITING, w) && StillWaits(w) && w.over == {}
  {
    w := RerunningIs();
    Then(RERUNNING, w, Event.Start(0, PARAMS, 1));
    w := Do(w, Event.Start(0, PARAMS, 1));
  }

  /** Meanwhile the rerun answers. */
  lemma AnswerCameIs() returns (w: World)
    ensures LeadsTo(WAITING + [DeliverRerun(0, Finished(ANSWER))], w) && StillWaits(w) && w.over == {}
  {
    w := WaitingIs();
    assert Fold([]).planned == 0;
    Then(WAITING, w, DeliverRerun(0, Finished(ANSWER)));
    w := Do(w, DeliverRerun(0, Finished(ANSWER)));
  }

  /** Then it ends. */
  lemma AnsweredIs() returns (w: World)
    ensures LeadsTo(ANSWERED, w) && StillWaits(w) && w.over == {0}
  {
    w := AnswerCameIs();
    Then(WAITING + [DeliverRerun(0, Finished(ANSWER))], w, EndRerun(0));
    w := Do(w, EndRerun(0));
  }

  /**
  A tab stays open all along. A statement is being run again, a new start waits, the rerun answers
  and ends, and the start is refused: the answer is gone, the tab says the statement is still being
  run again, and nothing can be run again.
  */
  lemma RevivedMarkIsReached()
    ensures var events := ANSWERED + [Event.Fail(1, Unconfirmed)];
      var w := Run(EMPTY, events);
      && AllFresh(EMPTY, events)
      && !MarksTrue(w) && w.runs == map[0 := MARKED]
      && forall index :: !MayRerun(w.runs, 0, index)
  {
    var w := AnsweredIs();
    assert !PlanArrived(w.runs, w.flights[1].call);
    Then(ANSWERED, w, Event.Fail(1, Unconfirmed));
    var v := Do(w, Event.Fail(1, Unconfirmed));
    assert !MarkTrue(v, 0, v.runs[0]);
  }
}
