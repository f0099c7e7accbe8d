/**
The store of runs as an object. A ghost `world` says which calls are going on and what each has
sent; `runs` is the field the program has. While the invariant holds, every tab shows its own run.
*/
module QueryRunsStore {
  import opened Prelude
  import opened QueryRuns
  import opened QueryRunsSafety
  import opened QueryRunsLaws

  lemma RerunEnds(w: World, id: nat)
    requires id in w.reflights && id !in w.over
    ensures var v := Do(w, QueryRunsSafety.EndRerun(id));
      && v.runs == Marked(w.runs, w.reflights[id].recall, None)
      && (Inv(w) ==> Inv(v)) && (Inv(w) && MarksTrue(w) ==> MarksTrue(v))
  {
    if Inv(w) {
      EndRerunKeeps(w, id);
      if MarksTrue(w) {
        EndedMarks(w, id);
      }
    }
  }

  class Store {
    var runs: Runs
    ghost var world: World

    /** The ghost world is about this store. */
    ghost predicate Tracks()
      reads this
    {
      world.runs == runs
    }

    ghost predicate Valid()
      reads this
    {
      Tracks() && Inv(world)
    }

    /** The call is one that began. */
    ghost predicate Began(call: Call)
      reads this
    {
      call.runId in world.flights && world.flights[call.runId].call == call
    }

    ghost predicate RerunBegan(id: nat, recall: Recall)
      reads this
    {
      id in world.reflights && world.reflights[id].recall == recall
    }

    constructor ()
      ensures Valid()
      ensures world == EMPTY
    {
      runs, world := map[], EMPTY;
    }

    /** Begins a run under a fresh id; None if one is running already. The results before it stay on screen. */
    method Start(tab: TabId, params: RunParams, runId: RunId) returns (call: Option<Call>)
      requires Tracks() && Fresh(world, Event.Start(tab, params, runId))
      modifies this
      ensures Tracks() && world == Do(old(world), Event.Start(tab, params, runId))
      ensures old(Valid()) ==> Valid()
      ensures call.None? <==> tab in old(runs) && old(runs)[tab].running
      ensures call.None? ==> runs == old(runs)
      ensures call.Some? ==>
        && Began(call.value) && OnScreen(world, runId) && call.value.previous == Lookup(old(runs), tab)
        && tab in runs && runs[tab].running && runs[tab].statements == StatementsBefore(call.value)
        && forall t :: t != tab ==> Lookup(runs, t) == Lookup(old(runs), t)
    {
      if Inv(world) {
        StartKeeps(world, Event.Start(tab, params, runId));
      }
      world := Do(world, Event.Start(tab, params, runId));
      var previous := Lookup(runs, tab);
      if previous.Some? && previous.value.running {
        return None;
      }
      var opening := if previous.Some? then previous.value else BLANK;
      opening := opening.(runId := Some(runId), running := true, stopping := false, rerunning := None);
      runs := runs[tab := opening];
      call := Some(Call(tab, runId, params, previous));
    }

    /** A frame reaches its tab while its run is on screen there, and then shows what the run has sent so far. */
    method Apply(call: Call, frame: Frame)
      requires Tracks() && Began(call)
      modifies this
      ensures Tracks() && world == Do(old(world), Event.Deliver(call.runId, frame))
      ensures old(Valid()) ==> Valid()
      ensures old(Valid()) && !OnScreen(old(world), call.runId) ==> runs == old(runs)
      ensures old(Valid()) && OnScreen(old(world), call.runId) ==>
        call.tab in runs && Shows(world, runs[call.tab], world.flights[call.runId])
      ensures forall t :: t != call.tab ==> Lookup(runs, t) == Lookup(old(runs), t)
    {
      if Inv(world) {
        DeliverKeeps(world, call.runId, frame);
        AppliedShows(world, call.runId, frame);
      }
      world := Do(world, Event.Deliver(call.runId, frame));
      if !Current(runs, call.tab, call.runId) {
        return;
      }
      var run := runs[call.tab];
      match frame {
        case Planned(plans) =>
          run := run.(count := run.count + 1, script := call.params.script, params := Some(call.params),
                      statements := PlannedAll(plans), summary := None, fatal := None);
        case Started(index) => run := run.(statements := StartedAt(run.statements, index));
        case Finished(result) => run := run.(statements := AnsweredAt(run.statements, result.index, result));
        case Done(summary) => run := run.(summary := Some(summary));
      }
      runs := runs[call.tab := run];
    }

    /** A run that went through leaves its tab at rest with its statements and its summary, if it is still on screen. */
    method Succeed(call: Call, summary: Summary)
      requires Tracks() && Began(call) && call.runId in world.live
      modifies this
      ensures Tracks() && world == Do(old(world), Event.Succeed(call.runId, summary))
      ensures old(Valid()) ==> Valid()
      ensures old(Valid()) && !OnScreen(old(world), call.runId) ==> runs == old(runs)
      ensures old(Valid()) && OnScreen(old(world), call.runId) ==>
        && call.tab in runs && call.tab in old(runs) && AtRest(runs[call.tab])
        && runs[call.tab].statements == old(runs)[call.tab].statements && runs[call.tab].summary == Some(summary)
      ensures forall t :: t != call.tab ==> Lookup(runs, t) == Lookup(old(runs), t)
    {
      if Inv(world) {
        SucceedKeeps(world, call.runId, summary);
        EndingIs(world, call.runId);
      }
      world := Do(world, Event.Succeed(call.runId, summary));
      if Current(runs, call.tab, call.runId) {
        var run := runs[call.tab];
        runs := runs[call.tab := run.(summary := Some(summary), running := false, stopping := false, runId := None)];
      }
    }

    /**
    `confirm`: the user has to be asked, nothing ran, and the tab shows what it showed when the run
    began. Otherwise the tab is at rest with the error. The invariant holds on unless this is one of
    the refusals that spoil it.
    */
    method Fail(call: Call, error: RunError) returns (confirm: bool)
      requires Tracks() && Began(call) && call.runId in world.live
      modifies this
      ensures Tracks() && world == Do(old(world), Event.Fail(call.runId, error))
      ensures old(Valid()) ==> (Valid() <==> !Spoils(old(world), Event.Fail(call.runId, error)))
      ensures confirm <==> error == Unconfirmed && !PlanArrived(old(runs), call)
      ensures old(Valid()) && confirm ==> Lookup(runs, call.tab) == call.previous
      ensures old(Valid()) && !confirm && !OnScreen(old(world), call.runId) ==> runs == old(runs)
      ensures old(Valid()) && !confirm && OnScreen(old(world), call.runId) ==>
        call.tab in runs && AtRest(runs[call.tab]) && runs[call.tab].fatal == Some(error)
      ensures forall t :: t != call.tab ==> Lookup(runs, t) == Lookup(old(runs), t)
    {
      if Inv(world) {
        DoKeepsInvExactly(world, Event.Fail(call.runId, error));
        EndingIs(world, call.runId);
        RefusedIsPrevious(world, call.runId);
      }
      world := Do(world, Event.Fail(call.runId, error));
      var planArrived := PlanArrived(runs, call);
      if error == Unconfirmed && !planArrived {
        if call.previous.None? {
          runs := runs - {call.tab};
        } else {
          runs := runs[call.tab := call.previous.value.(running := false, stopping := false)];
        }
        return true;
      }
      if Current(runs, call.tab, call.runId) {
        var run := runs[call.tab].(running := false, stopping := false, runId := None, fatal := Some(error));
        if planArrived {
          run := run.(statements := SkippedRest(run.statements));
        } else {
          run := run.(count := run.count + 1, script := call.params.script, params := Some(call.params),
                      statements := [], summary := None);
        }
        runs := runs[call.tab := run];
      }
      confirm := false;
    }

    /** The run to cancel is the one on screen in the tab, and it is asked to stop once. */
    method Stop(tab: TabId) returns (cancel: Option<RunId>)
      requires Tracks()
      modifies this
      ensures Tracks() && world == Do(old(world), Event.Stop(tab))
      ensures old(Valid()) ==> Valid()
      ensures old(Valid()) && cancel.Some? ==>
        OnScreen(world, cancel.value) && world.flights[cancel.value].call.tab == tab && tab in runs &&
          runs[tab].stopping
      ensures old(Valid()) ==>
        (cancel.None? <==> tab !in old(runs) || !old(runs)[tab].running || old(runs)[tab].stopping)
      ensures cancel.None? ==> runs == old(runs)
      ensures runs.Keys == old(runs).Keys && forall t :: t in runs ==> runs[t].statements == old(runs)[t].statements
    {
      if Inv(world) {
        StopKeeps(world, tab);
        if tab in runs {
          StoppedIsShown(world, tab);
        }
      }
      world := Do(world, Event.Stop(tab));
      if !MayStop(runs, tab) {
        return None;
      }
      cancel := runs[tab].runId;
      runs := runs[tab := runs[tab].(stopping := true)];
    }

    /** A statement is run again only in a tab at rest, one at a time, and remembers which results it is of. */
    method Rerun(tab: TabId, index: nat, ghost id: nat) returns (recall: Option<Recall>)
      requires Tracks() && Fresh(world, Event.Rerun(tab, index, id))
      modifies this
      ensures Tracks() && world == Do(old(world), Event.Rerun(tab, index, id))
      ensures old(Valid()) ==> Valid()
      ensures old(Valid()) && old(MarksTrue(world)) ==> MarksTrue(world)
      ensures recall.None? ==> runs == old(runs)
      ensures recall.Some? ==>
        && RerunBegan(id, recall.value) && Ongoing(world, recall.value) && Matches(runs, recall.value)
        && !runs[tab].running && runs[tab].rerunning == Some(index) && old(runs)[tab].rerunning.None?
        && HasIndex(runs[tab].statements, index)
    {
      if Inv(world) {
        RerunKeeps(world, tab, index, id);
        if MarksTrue(world) {
          RerunMarks(world, Event.Rerun(tab, index, id));
        }
      }
      world := Do(world, Event.Rerun(tab, index, id));
      if !MayRerun(runs, tab, index) {
        return None;
      }
      recall := Some(Recall(tab, index, runs[tab].count));
      runs := runs[tab := runs[tab].(rerunning := Some(index))];
      assert world.reflights[id].recall == recall.value;
    }

    /**
    A rerun's answer goes to its statement in the results it is of. Of a tab that was not closed
    since, it never reaches a planned run; the invariant holds on unless it overwrites one.
    */
    method ApplyRerunFrame(ghost id: nat, recall: Recall, frame: Frame)
      requires Tracks() && RerunBegan(id, recall)
      modifies this
      ensures Tracks() && world == Do(old(world), DeliverRerun(id, frame))
      ensures old(Valid()) ==> (Valid() <==> !Overwrites(old(world), id, frame))
      ensures old(Valid()) && BelongsTo(old(world), id, recall.tab) && PlannedOnScreen(old(world), recall.tab) ==>
        runs == old(runs)
      ensures !frame.Finished? || !Matches(old(runs), recall) ==> runs == old(runs)
      ensures frame.Finished? && Matches(old(runs), recall) ==>
        && runs.Keys == old(runs).Keys
        && runs[recall.tab] == old(runs)[recall.tab].(statements := runs[recall.tab].statements)
        && |runs[recall.tab].statements| == |old(runs)[recall.tab].statements|
        && forall k :: 0 <= k < |runs[recall.tab].statements| ==>
             runs[recall.tab].statements[k] ==
               var s := old(runs)[recall.tab].statements[k];
               if s.index == recall.index then Answered(s, frame.result) else s
    {
      if Inv(world) {
        DoKeepsInvExactly(world, DeliverRerun(id, frame));
        if BelongsTo(world, id, recall.tab) {
          OwnRerunMisses(world, id);
        }
      }
      world := Do(world, DeliverRerun(id, frame));
      if frame.Finished? && Matches(runs, recall) {
        var run := runs[recall.tab];
        AnsweredAtIs(run.statements, recall.index, frame.result);
        runs := runs[recall.tab := run.(statements := AnsweredAt(run.statements, recall.index, frame.result))];
      }
    }

    /** The mark goes from the results the rerun is of, and no mark of a rerun that has ended is left by this. */
    method EndRerun(ghost id: nat, recall: Recall)
      requires Tracks() && RerunBegan(id, recall) && id !in world.over
      modifies this
      ensures Tracks() && world == Do(old(world), QueryRunsSafety.EndRerun(id))
      ensures old(Valid()) ==> Valid()
      ensures old(Valid()) && old(MarksTrue(world)) ==> MarksTrue(world)
      ensures Matches(runs, recall) ==> runs[recall.tab].rerunning.None?
      ensures runs.Keys == old(runs).Keys
      ensures forall t :: t in runs ==> runs[t].(rerunning := None) == old(runs)[t].(rerunning := None)
    {
      RerunEnds(world, id);
      world := Do(world, QueryRunsSafety.EndRerun(id));
      if Matches(runs, recall) {
        runs := runs[recall.tab := runs[recall.tab].(rerunning := None)];
      }
    }

    /** A closed tab has no entry, and no run that was going on in it is on screen any more. */
    method Forget(tab: TabId)
      requires Tracks()
      modifies this
      ensures Tracks() && world == Do(old(world), Event.Forget(tab))
      ensures old(Valid()) ==> Valid()
      ensures old(Valid()) ==>
        forall runId :: runId in world.flights && world.flights[runId].call.tab == tab ==> !OnScreen(world, runId)
      ensures tab !in runs && forall t :: t != tab ==> Lookup(runs, t) == Lookup(old(runs), t)
    {
      if Inv(world) {
        ForgetKeeps(world, tab);
      }
      world := Do(world, Event.Forget(tab));
      runs := runs - {tab};
    }
  }

  /** A frame of the run on screen shows in its tab; one of any other run shows nowhere. */
  lemma AppliedShows(w: World, runId: RunId, frame: Frame)
    requires Inv(w) && runId in w.flights
    ensures var call, v := w.flights[runId].call, DoDeliver(w, runId, frame);
      if OnScreen(w, runId) then call.tab in v.runs && Shows(v, v.runs[call.tab], v.flights[runId])
        else v.runs == w.runs
  {
    EndingIs(w, runId);
    if OnScreen(w, runId) {
      FrameShows(w, runId, frame, w.runs[w.flights[runId].call.tab]);
    }
  }

  /** What a call that is on screen, or not, finds in its tab. */
  lemma EndingIs(w: World, runId: RunId)
    requires Inv(w) && runId in w.flights
    ensures var call := w.flights[runId].call;
      && (OnScreen(w, runId) <==> Current(w.runs, call.tab, runId))
      && (OnScreen(w, runId) ==>
            Shows(w, w.runs[call.tab], w.flights[runId]) &&
              (w.runs[call.tab].params.Some? ==> w.runs[call.tab].count > 0))
  {
    assert FlightInv(w, runId);
    var tab := w.flights[runId].call.tab;
    if tab in w.runs {
      assert EntryInv(w, tab, w.runs[tab]);
    }
  }

  lemma StoppedIsShown(w: World, tab: TabId)
    requires Inv(w) && tab in w.runs
    ensures w.runs[tab].running <==> w.runs[tab].runId.Some?
    ensures w.runs[tab].running ==>
      OnScreen(w, w.runs[tab].runId.value) && w.flights[w.runs[tab].runId.value].call.tab == tab
  {
    assert EntryInv(w, tab, w.runs[tab]);
  }
}
