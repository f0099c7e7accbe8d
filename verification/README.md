# DB Free: verified models of its stateful and textual cores

This project models the parts of the DB Free desktop client whose correctness depends on several
functions agreeing with each other, and proves what they promise to the rest of the program.

- **Panes and the workspace** (`Pane*`, `Workspace*`). Open tabs are
  one flat list; a binary split tree, an owner map, a shown-tab map and a focus say where each tab
  sits. `WorkspaceState` gives each action as a function on the state, `Workspace.Store` is the store
  object whose methods follow them, and every write is followed by the repairing subscriber.
  `WorkspaceEffects`, `WorkspaceMoves` and `WorkspaceLaws` say what the actions do to the tabs.
- **SQL statements** (`Sql*`). `SqlLexer` reads one character at a time and is the specification;
  `SqlScan` is the index-jumping scanner. `SqlPieces` and `SqlHidden` say without a lexer what a script is
  made of and where it is cut. `SqlWords` and `SqlSpans` add the classifier's words and the UTF-16 offsets
  of each statement, `SqlReading` and `SqlClassify` what the words are and what they are taken for.
- **The filter language** (`Filter*`): tokenizer, parser, printer, the grammar the parser accepts exactly,
  and the round trip.
- **Redis lines** (`RedisLine`, `RedisTokens`, `RedisLaws`): the line the editor builds, read by the editor's own
  splitter and by the server-side tokenizer.
- **Postgres arrays** (`PgArray*`) and **query parameters** (`Param*`). `ParamCut` says what the cut of a
  script is without the scanner, `ParamBinding` and `ParamLiterals` are about literals and binding, and `ParamFit`,
  `ParamSeams`, `ParamReplaced`, `ParamBound`, `ParamApart` and `ParamWitness` about what binding does to
  the script around a literal.
- **The library's folders** (`Library*`): the tree built from flat parent links, the folder picker and
  the export of a folder.
- **Batch runs** (`QueryRuns*`): the event protocol of a query tab. `QueryRunsStore.Store` is the store
  object, with a ghost world of the calls going on; `QueryRunsSafety` has the invariant, `QueryRunsLaws`
  what holds over whole runs, and `QueryRunsFrames` what the frames of a run tell of its statements.
- **The master key** (`MasterKey*`): its life over commands, outages and losses. The invariant of
  `MasterKeySafety` is the `Valid()` of the object `MasterKeyStore.AppState`.

Code that changes things step by step is a method or a class with loops, tied to a specification
function; what the program promises is proved about that function. `Prelude` and `Text` hold shared
vocabulary: option and result types, facts on sequences, the white space of JavaScript and of Rust.

## Where the code and what it promises part

The model follows the code. Each of these is a lemma that gives the exact condition, or a family of
runs that shows the difference.

- Repairing the layout settles if and only if no tab id is listed twice, or the listed tabs are
  recorded in live panes and the records are as many as the entries. Otherwise every write of the
  subscriber causes another (`PaneSettling.SettlesExactly`, `WorkspaceInvariant.SubscriberSettlesExactly`).
  A raw write keeps the invariant if and only if it lists no tab twice
  (`WorkspaceInvariant.RawWriteKeepsInv`).
- A requested tab is not activated when the pane the focus is left on already shows it without owning
  it (`PaneRequest.RequestedEndsActiveExactly`); this cannot happen in a reachable state.
- `activateTab` with an id that is not open makes the focused pane show its last tab
  (`WorkspaceLaws.ActivatingUnknownTab`).
- Span offsets saturate at 32 bits, so they are exact only up to there (`SqlSpans.SpanIsExact`).
- A Redis argument with a U+0085 and nothing else to quote is printed bare but split by the server
  side, and a line whose first argument begins with a bare `#` is a comment there
  (`RedisTokens.LineReadBack`, `RedisTokens.CommandReadBack`).
- A parameter literal doubles quotes but leaves backslashes, which the scanner takes for escapes: a
  value with an unescaped backslash before a quote or at its end is not skipped as one literal
  (`ParamBinding.LiteralConsumed`; `LiteralAtEnd` at the end of a script).
- A bound value can change how the text around it is read: a comment, a tag, braces or a quoted text may
  open or go on, and a name may begin, grow or end. `ParamBound.BindingKeepsCutExactly` says exactly when,
  `ParamWitness` has a script for each way, and `ParamApart.ApartBindingIsSafe` says that parameters with
  white space around them are safe, unless their values are raw or not skipped as one literal.
- Folders on a cycle, or under one, vanish from the tree together with their items, and nothing else
  does (`LibraryTree.NothingLost`). The comment at `src/lib/libraryTree.ts:47-48` promises the top
  level only for items whose folder is gone.
- A folder picker's path loses the separator behind an empty topmost name, where `folderPath` keeps it
  (`LibraryFlat.PathsAgree`).
- Results of a query tab are told apart by a number that starts over when the tab is closed. Query tabs
  never come back under their id, so every tab shows its own run in any interleaving
  (`QueryRunsLaws.ShowsItsOwnFrames`), but for one way in: a start that was waiting for its transaction
  when the tab was closed (`src/features/editor/QueryPane.tsx:290`). Then an answer or a refusal from
  before can do harm; exactly which is `QueryRunsSafety.BreaksExactly`, and `LateAnswerIsReached` and
  `LateRefusalIsReached` of `QueryRunsLaws` are such runs.
- A refused start brings back the whole entry from before it, with the mark of a rerun that has ended
  meanwhile and without its answer. `QueryRunsLaws.MarksTrueExactly` and `AnswersLostExactly` say when,
  and `RevivedMarkIsReached` is a run of a tab that stays open.
- The count of sealed secrets leaves out the keys of AI profiles, kept under `ai_key:<id>`. With only
  such keys stored, losing the master key creates a new one and reports nothing lost
  (`MasterKeySafety.ProfileKeyOrphaned`); all secrets stay under one key exactly when an event does not
  make a new master key while some profile has a key that stays (`AllUnderOneKeyExactly`).

## Model

| member | source | states |
|---|---|---|
| PaneSurgery.RemoveLeafOrder | src/lib/panes.ts:86-93 | Removing a pane from the tree leaves the reading order without it, and no tree exactly when it was the only one. |
| PaneSurgery.RemoveLeafDividers | src/lib/panes.ts:86-93 | Removing a pane invents no divider, and keeps divider ids distinct and ratios usable. |
| PaneSurgery.SplitLeafOrder | src/lib/panes.ts:95-103 | Splitting a pane changes the reading order only by the new pane directly before or after it, whatever the tree. |
| PaneSurgery.SplitLeafSplitIds | src/lib/panes.ts:95-103 | Splitting adds one divider id and loses none. |
| PaneSurgery.SplitLeafDividers | src/lib/panes.ts:95-103 | With a fresh divider id, divider ids stay distinct and ratios usable. |
| PaneSurgery.WithRatioKeepsIds | src/lib/panes.ts:105-111 | Moving a divider keeps every pane and divider id in order and the ratios in [0.15, 0.85]. |
| PaneSurgery.WithRatioMovesOne | src/lib/panes.ts:105-111 | Of the ratios by divider id, exactly the named one changes. |
| PaneSurgery.ResizedGrown | src/lib/panes.ts:114-121 | Any number, NaN and the infinities included, moves only the named divider, to a clamped ratio, and keeps the layout well formed. |
| PaneSurgery.SplitOrder | src/lib/panes.ts:152-167 | A drop on an edge puts one pane into the reading order, on the dropped side of the target. |
| PaneSurgery.SplitPane | src/lib/panes.ts:152-167 | A drop on an edge succeeds if and only if the target exists and there are fewer than four panes; the new pane is fresh, focused, shows the tab, and all others stay. |
| PaneSurgery.SplitKeepsTabs | src/lib/panes.ts:152-167 | Only the dropped tab changes pane, and every old pane goes on showing what it showed. |
| PaneSurgery.SplitGrown | src/lib/panes.ts:152-167 | Splitting draws its id from the counter and keeps the layout well formed: ids distinct and at most the counter, at most four panes, ratios usable. |
| PaneSurgery.ClosedPane | src/lib/panes.ts:171-188 | Closing a pane removes exactly it from the reading order; its next pane, else its previous one, takes over its focus and tabs, and what it showed only if it showed nothing itself. |
| PaneSurgery.ClosedKeepsTabs | src/lib/panes.ts:171-188 | Every tab stays in its pane but the tabs of the closed one, which all go to that neighbour. |
| PaneSurgery.ClosedGrown | src/lib/panes.ts:171-188 | Closing keeps pane ids distinct, the focus on a live pane and the layout well formed. |
| PaneSurgery.InitialGrown | src/lib/panes.ts:44-46 | The layout a window starts with is well formed. |
| Panes.ClosePane | src/lib/panes.ts:171-188 | The in-place updates of `closePane` amount to the specified layout that the lemmas above are about, the last-pane and unknown-pane cases included. |
| PaneNormalize.NormalizedConsistent | src/lib/panes.ts:242-281 | Whatever `owner` and `active` hold, the repaired layout agrees with the open tabs: exactly they have an owner, every pane shows one of its own tabs, no pane is empty unless it is the only one, the focus is live. |
| PaneNormalize.NormalizedKeepsTabs | src/lib/panes.ts:242-281 | The repair moves no tab: each ends in the pane it was in (the focused one if it had none), pane order is kept, every pane with tabs stays, and each pane that stays has tabs unless it is the only one. |
| PaneNormalize.NormalizedKeepsShown | src/lib/panes.ts:257-276 | A pane that showed one of its own open tabs goes on showing it, unless another tab of the same pane was asked for. |
| PaneRequest.RequestedEndsActiveExactly | src/lib/panes.ts:257-276 | A requested open tab ends up active unless the pane the focus is left on is not its own and shows it already. Said of the layout passed in: the focus is left on the next pane with tabs, else the last one, and that pane shows its own tab or the first one lent by the empty panes next to it. |
| PaneNormalize.RequestedEndsActive | src/lib/panes.ts:262-276 | The same said of the layout in the middle of the repair: it is active if and only if it was not already shown, once owners are set and empty panes closed, by a focused pane that is not its own. |
| PaneNormalize.RequestedEndsActiveWhenOwnShown | src/lib/panes.ts:262-276 | In particular whenever no pane shows a tab of another pane. |
| PaneNormalize.NormalizedFixpoint | src/lib/panes.ts:242-281 | A consistent layout is returned unchanged, as the same object. |
| PaneNormalize.NormalizedIdempotent | src/lib/panes.ts:242-281 | Repairing twice is repairing once: the second pass rewrites nothing. |
| PaneSettling.NormalizedTidy | src/lib/panes.ts:242-281 | Of any tab list, one that names tabs twice included: after a repair each listed tab is recorded in a live pane, panes show their own tabs, and none is empty unless it is the only one. |
| PaneSettling.RepairedOnce | src/lib/panes.ts:242-281 | After one repair of any live layout the next one rewrites it if and only if the first one changed owners and some tab is listed twice; otherwise it is returned as it is. |
| PaneSettling.NeverSettles | src/lib/panes.ts:242-281 | In that case owners change again after every number of repairs. |
| PaneSettling.SettlesExactly | src/lib/panes.ts:242-281 | Repeated repairs of a live layout come to rest if and only if no tab is listed twice, or its listed tabs are recorded in live panes and the records are as many as the entries. |
| PaneNormalize.NormalizeOwners | src/lib/panes.ts:244-255 | The owner pass gives every open tab its live pane, else the focused one, and reports a change exactly when a tab is new, gone or in a dead pane. |
| PaneNormalize.PruneEmpty | src/lib/panes.ts:257-260 | The loop over the panes closes exactly those without a tab, one after the other, never the last. |
| PaneNormalize.ShowOwn | src/lib/panes.ts:265-276 | The loop makes every pane show its own tab, falling back to its last one, and reports exactly whether some pane changed. |
| PaneNormalize.Normalize | src/lib/panes.ts:242-281 | The whole repair is the specified one, and its result is the object passed in exactly when nothing needed repair. |
| WorkspaceInvariant.InitialInv | src/lib/panes.ts:44-46 | A new window satisfies the workspace invariant: distinct tabs, a well-formed layout consistent with them, `activeTabId` and `splitTabId` derived from it, dirty tabs open, the preview open and clean, at most the limit of reopenable tabs. |
| WorkspaceInvariant.RepairedInv | src/stores/workspace.ts:1214-1227 | The subscriber restores the whole invariant after any write that leaves distinct tabs and a well-formed layout. |
| WorkspaceInvariant.RepairedSettled | src/stores/workspace.ts:1214-1227 | Where the invariant holds the subscriber writes nothing. |
| WorkspaceInvariant.SubscriberSettles | src/stores/workspace.ts:1209-1227 | After its one extra write the subscriber, called again by that write, has nothing left to repair. |
| WorkspaceInvariant.RepairedNeeds | src/stores/workspace.ts:1209-1227 | Of any write with a live layout: what the subscriber wrote needs repair again if and only if a tab is listed twice and the owners had to change. |
| WorkspaceInvariant.SubscriberSettlesExactly | src/stores/workspace.ts:1209-1227 | So the subscriber, told of each of its own writes, falls quiet if and only if no tab is listed twice or the owners need no change; it is then quiet after one write, and otherwise writes for ever. |
| WorkspaceInvariant.DoKeepsInv | src/stores/workspace.ts:735-974 | An action, followed by the subscriber, keeps the invariant if and only if it is not a raw write that lists a tab twice. |
| WorkspaceInvariant.RunKeepsInv | src/stores/workspace.ts:735-974 | Every finite run without such a write keeps it. |
| WorkspaceInvariant.ReachableInv | src/stores/workspace.ts:735-974 | A new window holds it all along a run if and only if no raw write of the run lists a tab twice. |
| WorkspaceInvariant.ClosingKeepsInv | src/stores/workspace.ts:407-419 | Closing tabs keeps it, whichever way they close: asked, answered, to the right, all others, or with their connection. |
| WorkspaceInvariant.RawWriteKeepsInv | src/stores/workspace.ts:1206-1227 | A feature may write any `tabs` and `activeTabId`, knowing nothing of panes: after the repair the invariant holds if and only if no tab is listed twice. |
| WorkspaceInvariant.SwapSplitRepairable | src/stores/workspace.ts:892-901 | Swapping sides writes a layout the subscriber can repair, although it rewrites the owners by hand. |
| WorkspaceInvariant.ReplacePreviewRepairable | src/stores/workspace.ts:751-758 | Replacing the preview swaps exactly one id in the tab list and leaves a layout the subscriber can repair. |
| WorkspaceEffects.SuccessorIsNearest | src/stores/workspace.ts:372-390 | A pane whose shown tab leaves shows the nearest tab of its strip that stays on the left, else the nearest on the right, else none. |
| WorkspaceEffects.HandedOffKeepsTabs | src/stores/workspace.ts:372-390 | Handing over changes which tab a pane shows and never where a tab is. |
| WorkspaceEffects.ClosingTabs | src/stores/workspace.ts:392-400 | Closing any set of tabs keeps the survivors in order and in their panes; a pane with survivors stays and shows its old tab, or the nearest survivor; only panes left empty go, and the others keep their order. |
| WorkspaceEffects.ClosingTabsSettled | src/stores/workspace.ts:407-419 | What closing tabs writes is final: the subscriber changes nothing about it. |
| WorkspaceMoves.ClosingToRight | src/stores/workspace.ts:842-850 | Closing to the right of the k-th tab keeps exactly the first k + 1. |
| WorkspaceMoves.ClosingOthers | src/stores/workspace.ts:835-840 | Closing the others keeps exactly the one. |
| WorkspaceMoves.RefusedExactly | src/stores/workspace.ts:407-416 | Closing is refused if and only if it would take the last query tab of a connection whose user said no. |
| WorkspaceMoves.ClosedStack | src/stores/workspace.ts:330-335 | The stack of closed tabs holds the newest 25, the last one closed on top, queries and tables without their seed. |
| WorkspaceMoves.DroppingConnection | src/stores/workspace.ts:586-598 | A tab goes with its connection if and only if it is of that connection and of the kinds asked for. |
| WorkspaceEffects.PlacedStrip | src/lib/panes.ts:214-228 | In the target pane the strip is the old one without the tab, with it inserted before `beforeId` or at the end. |
| WorkspaceEffects.PlacedOtherStrip | src/lib/panes.ts:214-228 | Every other strip only loses the tab. |
| WorkspaceEffects.MovingTab | src/stores/workspace.ts:423-429 | A move does both to the strips; across panes the moved tab becomes the active one in the target pane, within a pane the layout is untouched. What the panes left behind show is `MovingHandsOn`. |
| WorkspaceEffects.MovingAcross | src/stores/workspace.ts:423-429 | Across panes, wherever in the list it lands, only that tab changes pane, and it ends active in a focused target. |
| WorkspaceMoves.MovingHandsOn | src/stores/workspace.ts:423-430 | After a move across panes exactly the target and the panes with another tab are left. Each but the target shows what it showed, or, if that was the moved tab, the nearest tab of its strip, the left one first. |
| WorkspaceMoves.MovingSettled | src/stores/workspace.ts:423-430 | What a move writes needs no repair. |
| WorkspaceEffects.FocusedTabStays | src/lib/panes.ts:242-281 | The tab shown by the pane with the keyboard survives any repair as the active tab. |
| WorkspaceLaws.ActivatingOpenTab | src/stores/workspace.ts:967-974 | Activating an open tab changes exactly its pane's shown tab and the focus, and makes it the active tab. |
| WorkspaceLaws.ActivatingUnknownTab | src/stores/workspace.ts:967-974 | Activating an id that is not open makes the focused pane show its last tab instead: the code does not ignore it. |
| WorkspaceLaws.CycleStep | src/stores/workspace.ts:955-962 | Cycling moves the shown tab by one position in the focused strip, wrapping at both ends. |
| WorkspaceLaws.CyclingBack | src/stores/workspace.ts:955-962 | Cycling one way and then the other is the identity on every reachable state. |
| WorkspaceLaws.SwappedConsistent | src/stores/workspace.ts:892-901 | Swapping what two panes show, and who owns it, keeps the layout consistent. |
| WorkspaceLaws.SwappingTwice | src/stores/workspace.ts:892-901 | Swapping the sides twice is the identity, and one swap exchanges `activeTabId` and `splitTabId`. |
| WorkspaceLaws.ClosedStrips | src/lib/panes.ts:171-188 | Closing a pane joins its strip to its neighbour's in tab order, and leaves all other strips. |
| WorkspaceLaws.ClosingPane | src/stores/workspace.ts:919 | Closing a pane closes no tab, needs no repair, and every pane left shows what it showed. |
| WorkspaceLaws.SplittingOff | src/stores/workspace.ts:909-917 | A tab split off stands alone and active in a fresh pane; every other strip only loses it. |
| WorkspaceMoves.SplittingPane | src/stores/workspace.ts:909-917 | The split action puts a tab alone and active into a new pane, next to its own on the side asked for; every pane that keeps a tab stays and hands on as after a move. It does so exactly when there is room, and the pane has that tab and another one; otherwise nothing changes. |
| WorkspaceMoves.DroppingTab | src/stores/workspace.ts:921-928 | A drop in the middle is a move to the end of the strip, one on an edge a split with the same law, refused exactly for unknown ids, with four panes, and for a pane's only tab on its own edge. |
| WorkspaceMoves.ClosingSplit | src/stores/workspace.ts:886-890 | Closing the split closes the first pane in reading order that does not have the focus, and needs no repair. |
| WorkspaceMoves.OpeningToSide | src/stores/workspace.ts:873-882 | The tab goes to the end of the next pane in reading order, of the one before when its own is the last, and into a new pane on the right when there is only one; the panes left behind hand on. |
| WorkspaceMoves.FocusingPane | src/stores/workspace.ts:903-907 | Focusing a pane moves the focus and nothing else; an unknown pane changes nothing. |
| WorkspaceLaws.ReplacingPreview | src/stores/workspace.ts:751-758 | A new preview takes the old one's place in the list and in its pane; only that tab goes, and it had no unsaved work. |
| WorkspaceLaws.ShowingTab | src/stores/workspace.ts:364-368 | Showing a tab makes it the active one and drops or moves no other, in one write that needs no repair. |
| WorkspaceMoves.OpeningPlaces | src/stores/workspace.ts:351-360 | A new tab goes right behind the last tab of its connection in the focused pane, to the end if there is none; the others keep their order. |
| WorkspaceMoves.OpeningTable | src/stores/workspace.ts:738-760 | A table opened becomes active; which tab is the preview afterwards, in each case; and no tab closes but a preview that is replaced. |
| WorkspaceLaws.RawOpenShows | src/stores/workspace.ts:1206-1227 | A feature that appends a tab and sets `activeTabId` gets that tab shown, in the pane with the keyboard when it is new. |
| WorkspaceSafety.DoGrows | src/lib/panes.ts:152-167 | No action lowers `counter` or brings back a pane id at or below it. |
| WorkspaceSafety.NeverReused | src/lib/panes.ts:152-167 | Once a pane is gone its id never names a pane again, in any run. |
| WorkspaceSafety.UnsavedWorkSurvives | src/stores/workspace.ts:935-952 | Apart from closing outright, a confirmed request, a dropped connection and a raw write, no action closes a tab with unsaved work, and only its own feature clears the mark; replacing the preview and asking to close are safe. |
| Workspace.HandOffActive | src/stores/workspace.ts:372-390 | The loop over the panes changes exactly the panes whose shown tab leaves. |
| Workspace.InsertionPoint | src/stores/workspace.ts:351-360 | The loop finds the position right after the last tab of the same connection in the focused pane, else the end. |
| Workspace.Repair | src/stores/workspace.ts:1214-1227 | The subscriber computes the specified repair and reports exactly whether it must write. |
| Workspace.PaneStateOf | src/stores/workspace.ts:342-345 | Layout, `activeTabId` and `splitTabId` are written together, the two ids read off the repaired layout. |
| Workspace.Store.constructor | src/lib/panes.ts:44-46 | A new store is the initial state. |
| Workspace.Store.Write | src/stores/workspace.ts:1209-1227 | Any write followed by the subscriber restores the invariant, and its result is the repaired write. |
| Workspace.Store.Open | src/stores/workspace.ts:364-368 | The store after `showTab` is the specified next state; the invariant is kept. |
| Workspace.Store.OpenTable | src/stores/workspace.ts:738-760 | Likewise for opening a table: shown again, new, or in the preview's place, by the same cases. |
| Workspace.Store.ActivateTab | src/stores/workspace.ts:967-974 | Likewise for activating by id. |
| Workspace.Store.CycleTab | src/stores/workspace.ts:955-962 | Likewise for Ctrl+Tab; an empty strip changes nothing. |
| Workspace.Store.RemoveTabs | src/stores/workspace.ts:407-419 | Likewise for closing; nothing is written when no tab is open under these ids or the user declines to leave a transaction. |
| Workspace.Store.RequestCloseTabs | src/stores/workspace.ts:943-947 | Tabs without unsaved work close; otherwise nothing closes and exactly the dirty ones are put in the request. |
| Workspace.Store.ResolveCloseRequest | src/stores/workspace.ts:948-952 | The request is cleared in any case and its tabs close only on a yes. |
| Workspace.Store.MoveTab | src/stores/workspace.ts:423-430 | The store after a move is the specified next state; the invariant is kept. |
| Workspace.Store.SplitPane | src/stores/workspace.ts:909-917 | Likewise for splitting, refused when the pane would be left empty. |
| Workspace.Store.DropTab | src/stores/workspace.ts:921-928 | Likewise for a drop: in the centre a move, on an edge a split, refused for unknown ids and for a pane's only tab. |
| Workspace.Store.ClosePane | src/stores/workspace.ts:919 | Likewise for closing a pane. |
| Workspace.Store.CloseSplit | src/stores/workspace.ts:886-890 | Likewise for closing the side pane, nothing with one pane. |
| Workspace.Store.SwapSplit | src/stores/workspace.ts:892-901 | Likewise for swapping the sides, nothing unless both show a tab. |
| Workspace.Store.OpenToSide | src/stores/workspace.ts:873-882 | Likewise for opening to the side: into the neighbour, or by a split when there is none; unknown ids change nothing. |
| Workspace.Store.FocusPane | src/stores/workspace.ts:903-907 | Likewise for focusing a pane. |
| Workspace.Store.ResizeSplit | src/stores/workspace.ts:932 | Likewise for dragging a divider. |
| Workspace.Store.PromoteTab | src/stores/workspace.ts:762 | Only the preview mark of that tab goes. |
| Workspace.Store.SetTabDirty | src/stores/workspace.ts:935-940 | The mark changes for that tab alone, and a preview that becomes dirty stops being one. |
| Workspace.Store.DropConnection | src/stores/workspace.ts:586-598 | The tabs of a connection (of the given kinds) go, everything else as in `ClosingTabs`. |
| Workspace.Store.RawWrite | src/stores/workspace.ts:1206-1227 | A raw write of any tabs and any active id: the subscriber, told of its own write, finds nothing more to do exactly when the layout settles, and the invariant holds whenever no tab is listed twice. |
| SqlScan.Scan | src-tauri/src/guard/destructive.rs:100-196 | The index-jumping scanner cuts exactly where the one-character-at-a-time lexer cuts, on every input; where that is, `SqlPieces.LexIsStatements` says without it. |
| SqlScan.SkipQuote | src-tauri/src/guard/destructive.rs:133-147 | Jumping over a quoted text, doubled quotes included or unterminated, loses no cut: lexing goes on alike before and after the jump. |
| SqlScan.SkipLine | src-tauri/src/guard/destructive.rs:148-152 | The same of a line comment, which keeps a fresh line fresh. |
| SqlScan.SkipBlock | src-tauri/src/guard/destructive.rs:153-162 | The same of a block comment, closed or not. |
| SqlScan.TagEnd | src-tauri/src/guard/destructive.rs:164-168 | The tag read is the longest run of tag characters, and reading it is the lexer's own reading. |
| SqlScan.SkipBody | src-tauri/src/guard/destructive.rs:170-178 | The jump ends right behind the first occurrence of the whole tag, or at the end of the script, as the lexer does. |
| SqlScan.SkipDollar | src-tauri/src/guard/destructive.rs:163-182 | A `$` opens a body exactly when a second one follows its tag; otherwise only it is passed over, and no cut is lost either way. |
| SqlScan.ShellEnd | src-tauri/src/guard/destructive.rs:117-122 | A shell line ends at the first line feed or at the end of the script. |
| SqlLexer.LexLossless | src-tauri/src/guard/destructive.rs:100-196 | Ranges are ordered and in bounds, the first starts at 0, each follows the last one directly after a line or behind one `;`, none contains a cut, and only one `;` and blanks follow the last. |
| SqlLexer.CutsExactly | src-tauri/src/guard/destructive.rs:100-196 | Of the lexer by itself: a range ends at a position if and only if there a `;` is read in code, or a line feed ends a shell line. |
| SqlLexer.LexWhole | src-tauri/src/guard/destructive.rs:100-196 | A non-blank text without a cut inside is one range, the whole of it. |
| SqlPieces.LexIsStatements | src-tauri/src/guard/destructive.rs:100-196 | Said without any lexer: however a script is cut into quoted texts, comments, dollar bodies, shell lines and single characters that open none of these, its statements are one up to each `;` among those characters, one to the end of each shell line, and what is left if it is not blank. |
| SqlPieces.CutExists | src-tauri/src/guard/destructive.rs:100-196 | Every script can be cut so. |
| SqlHidden.EndsExactly | src-tauri/src/guard/destructive.rs:100-196 | Within a script a statement ends at a `;` that is a piece by itself, and behind a shell line, and nowhere else. |
| SqlHidden.HiddenEndsNothing | src-tauri/src/guard/destructive.rs:100-196 | Behind any text without quotes, `-`, `/`, `$`, backslash and dot: nothing inside a quoted text, a comment, a dollar body or a shell line ends a statement, and the ends before it are exactly the `;` there. |
| SqlHidden.HiddenShiftsOnly | src-tauri/src/guard/destructive.rs:100-196 | The ends behind such a piece do not depend on what it says: they are those of the text behind it, read by itself. |
| SqlHidden.LiteralHides | src-tauri/src/guard/destructive.rs:133-147 | The same of any text in any quotes, its own quotes doubled, with anything behind it, another quote included. |
| SqlWords.WordsOfTrim | src-tauri/src/guard/destructive.rs:220-291 | Trimming white space never changes the top-level words. |
| SqlWords.LiteralsDoNotCount | src-tauri/src/guard/destructive.rs:220-291 | What a literal says, doubled quotes included, never changes the words and so never the classification, wherever a literal can open: in code, behind a single `-` or `/`, or behind a closing quote of another kind. |
| SqlWords.NestedDoesNotCount | src-tauri/src/guard/destructive.rs:220-291 | Text that stays inside parentheses adds no word, so a `WHERE` in a subquery does not count. |
| SqlReading.WordsOfRow | src-tauri/src/guard/destructive.rs:220-291 | Said without the reader: however a statement is cut into quoted texts, comments, longest runs of word characters and single other characters, its words are those runs, in upper case, that have as many parentheses opened as closed before them. |
| SqlReading.RowExists | src-tauri/src/guard/destructive.rs:220-291 | Every statement can be cut so. |
| SqlClassify.LabelExactly | src-tauri/src/guard/destructive.rs:299-333 | A statement is destructive, or a read, exactly if its words are as two conditions say that are stated over sets of words apart from the code: it fails closed, whatever is not known to read is a write. A reason is given exactly for a destructive one, and is that of its leader. |
| SqlClassify.DeleteNeedsWhere | src-tauri/src/guard/destructive.rs:307-312 | A DELETE or UPDATE is a plain write if a WHERE, in any case, stands in it as a word outside parentheses, quotes and comments, and destructive otherwise. |
| SqlClassify.DropsAreDestructive | src-tauri/src/guard/destructive.rs:305-315 | DROP and TRUNCATE are destructive, and ALTER if and only if it has such a DROP. |
| SqlClassify.HiddenDoesNotCount | src-tauri/src/guard/destructive.rs:220-291 | Two statements that differ in what one quoted text or comment says have the same label and reason. |
| SqlClassify.AppendingWhere | src-tauri/src/guard/destructive.rs:299-333 | A WHERE clause put behind a DELETE or UPDATE makes it a plain write, if it leaves no parenthesis, quoted text or comment open. |
| SqlClassify.IntentExactly | src-tauri/src/guard/destructive.rs:54-88 | The intent of every span: to read if a shell command opens it, otherwise by the words of its text as above. |
| SqlWords.TopLevelWords | src-tauri/src/guard/destructive.rs:220-291 | The scanning loop yields exactly the words of the one-character reader. |
| SqlSpans.SpanIsExact | src-tauri/src/guard/destructive.rs:54-85 | Slicing the script's UTF-16 code units (section 2.1 of RFC 2781) at a span gives exactly the statement's, if and only if its end offset fits in 32 bits. |
| SqlSpans.SpansOrdered | src-tauri/src/guard/destructive.rs:54-85 | Spans never overlap and stand in order, and none is empty when the script fits in 32 bits. |
| SqlSpans.SpansMatchStatements | src-tauri/src/guard/destructive.rs:27-85 | Spans and classified statements correspond one to one, each statement labelled by the text of its span. |
| SqlSpans.RunningOneStatement | src-tauri/src/guard/destructive.rs:27-85 | The text of any span, run alone, is one statement, the text itself, classified as it was in the script; that is the span's intent, unless it opens with a shell command, whose intent is to read. |
| SqlSpans.Utf16Table | src-tauri/src/guard/destructive.rs:56-63 | The running table holds the UTF-16 offset of every position, saturated at 32 bits. |
| SqlSpans.TrimRange | src-tauri/src/guard/destructive.rs:67-72 | The two inward walks find the bounds of the trimmed text. |
| SqlSpans.ComputeIntent | src-tauri/src/guard/destructive.rs:76-82 | The intent is that of the classified text, or to read for a shell command. |
| SqlSpans.TrimAll | src-tauri/src/guard/destructive.rs:64-75 | Blank ranges are dropped and the rest trimmed, in order. |
| SqlSpans.ComputeSpans | src-tauri/src/guard/destructive.rs:54-85 | The whole computation yields the specified spans. |
| FilterTokens.ScanPlaced | src/lib/filterExpr.ts:78-124 | Tokens are non-empty, in order, disjoint and inside the source, and so is the place of a scanning error. |
| FilterTokens.ScanIsLexed | src/lib/filterExpr.ts:78-124 | The tokens' kinds and texts do not depend on where in the source the text stands. |
| FilterTokens.LexedQuoted | src/lib/filterExpr.ts:87-107 | A doubled and quoted text is read back as one quoted token with the original text. |
| FilterTokens.LexedWord | src/lib/filterExpr.ts:115-121 | Characters that stop no word are read as one word up to the first that does. |
| FilterTokens.LexedSymbol | src/lib/filterExpr.ts:109-114 | Every symbol, of one character or two, is read as that symbol unless the next character makes a longer one of it. |
| FilterTokens.QuotedBack | src/lib/filterExpr.ts:91-105 | Undoubling is exact: reading ends at the closing quote and gives the text back. |
| FilterTokens.ReadQuoted | src/lib/filterExpr.ts:87-105 | The loop reads a quoted text exactly, doubled quotes and the unterminated case included. |
| FilterTokens.ReadFirst | src/lib/filterExpr.ts:82-122 | One token, or the error, is read exactly as specified. |
| FilterTokens.Tokenize | src/lib/filterExpr.ts:78-124 | The whole loop yields the specified tokens and error. |
| FilterParser.ResolveIsColumn | src/lib/filterExpr.ts:129-134 | A name resolves to itself if and only if it is a column, and only ever to a column. |
| FilterParser.ErrorsPointInside | src/lib/filterExpr.ts:250-303 | Every error of the parser points at a place inside the source. |
| FilterParser.ReadListItems | src/lib/filterExpr.ts:209-245 | The loop over `in` items accepts exactly the specified lists and joins what it read. |
| FilterParser.ParseFilterExpr | src/lib/filterExpr.ts:250-303 | The parsing loop yields the specified rules and mode, or the specified error. |
| FilterGrammar.ResolveExactly | src/lib/filterExpr.ts:129-134 | A typed name resolves to the column of that name, else to the first one that differs from it in case only, and to nothing otherwise. |
| FilterGrammar.ParsesExactly | src/lib/filterExpr.ts:250-303 | Against a grammar stated without the parser: a text parses to given rules and a mode if and only if its tokens are those rules' sentence, with each operator in any of its spellings, `= null` and `!= null` read as tests, `in` lists with or without parentheses, and one connector throughout. So everything else is refused, and nothing reads two ways. |
| FilterGrammar.NullIsATest | src/lib/filterExpr.ts:288-291 | For any name of a column: `= null`, `== null`, in any case, parse as is null, `!= null` and `<> null` as is not null. |
| FilterGrammar.QuotedIsAValue | src/lib/filterExpr.ts:209-216 | In single quotes any value stays a value, `null` included. |
| FilterPrinter.NameReads | src/lib/filterExpr.ts:308-310 | A printed name, bare or quoted, is read as one token with that name, whatever it contains. |
| FilterPrinter.ValueReads | src/lib/filterExpr.ts:312-315 | A printed value is read as one token with that value; keywords, numbers and `null` included. |
| FilterPrinter.RuleReads | src/lib/filterExpr.ts:317-328 | A printed rule is read as the tokens of its column, operator and operand. |
| FilterPrinter.PrintedTokens | src/lib/filterExpr.ts:317-328 | A printed filter is scanned without error into the rules' tokens with a connector between each two. |
| FilterRoundTrip.OperatorBack | src/lib/filterExpr.ts:146-191 | A printed operator is read back as itself with exactly its own tokens, for each of the operators. |
| FilterRoundTrip.RuleBackIs | src/lib/filterExpr.ts:250-303 | Reading a printed rule consumes exactly its tokens and gives its canonical form, or fails when its column is unknown or its `in` list is empty. |
| FilterRoundTrip.FormatThenParse | src/lib/filterExpr.ts:250-328 | For every list of rules: parsing the printed filter gives the canonical rules, with the mode when there are two or more, and fails exactly when some rule has no canonical form. |
| FilterRoundTrip.ListSurvives | src/lib/filterExpr.ts:317-328 | An `in` value survives printing if and only if each of its comma parts is trimmed and non-empty. |
| FilterRoundTrip.RuleSurvives | src/lib/filterExpr.ts:317-328 | A rule equals its canonical form if and only if its column is known and its value is of the form the rule format can carry. |
| FilterRoundTrip.RoundTrip | src/lib/filterExpr.ts:250-328 | Parsing the printed filter gives back the same rules (and the mode, from two rules on) if and only if every rule has a known column and a carriable value. |
| RedisLine.WordsOfLine | src/lib/redisCommands.ts:371-403 | The editor's splitter reads a built line as exactly one word per argument, the printed argument, for every list of arguments. |
| RedisLine.ArgIsWord | src/lib/redisCommands.ts:466-493 | A printed argument followed by anything is read whole, as the start of one word. |
| RedisLine.SplitWords | src/lib/redisCommands.ts:371-403 | The splitting loop yields the specified words and whether the last one is open. |
| RedisLine.WriteArg | src/lib/redisCommands.ts:466-493 | The printing loop yields the specified quoted form. |
| RedisTokens.QuoteArgInjective | src/lib/redisCommands.ts:466-493 | Two arguments print alike only if they are equal. |
| RedisTokens.LineInjective | src/lib/redisCommands.ts:496-498 | Two argument lists give the same line only if they are equal. |
| RedisTokens.LineRead | src-tauri/src/integrations/redis.rs:310-400 | The server-side tokenizer accepts every built line, loses exactly the blanks that were printed bare, and otherwise gives the arguments back. |
| RedisTokens.LineReadBack | src-tauri/src/integrations/redis.rs:310-400 | It gives the arguments back if and only if none has a bare U+0085, the one blank of its language that the printer does not quote. |
| RedisTokens.TrimTokens | src-tauri/src/integrations/redis.rs:299-304 | Trimming a line that tokenizes never changes its tokens. |
| RedisTokens.EndBlank | src-tauri/src/integrations/redis.rs:310-400 | A blank after a line changes only an unfinished token, and never the tokens of a finished line. |
| RedisTokens.CommandReadBack | src-tauri/src/integrations/redis.rs:295-308 | A built line is read as that one command if and only if there is an argument, none has a bare U+0085, and the first does not begin with a bare `#`. |
| RedisTokens.ReadDouble | src-tauri/src/integrations/redis.rs:310-400 | The loop over a double-quoted text reads its escapes exactly, up to its end or the specified error. |
| RedisTokens.ReadSingle | src-tauri/src/integrations/redis.rs:310-400 | The same of single quotes. |
| RedisLaws.SingleRead | src-tauri/src/integrations/redis.rs:362-381 | Text in single quotes, its own quotes with a backslash, is read verbatim, blanks, double quotes and other backslashes included, unless it ends in a backslash. |
| RedisLaws.SingleStaysOpen | src-tauri/src/integrations/redis.rs:362-381 | If it does, the line is refused as unterminated. |
| RedisLaws.EscapeRead | src-tauri/src/integrations/redis.rs:331-353 | In double quotes n, r, t, a and b behind a backslash are control characters, any other character but x is itself. |
| RedisLaws.HexRead | src-tauri/src/integrations/redis.rs:341-350 | A backslash, x and two hexadecimal digits, in either case, are the character of that number. |
| RedisLaws.RefusedAtFirst | src-tauri/src/integrations/redis.rs:295-308 | A script is refused if and only if some command line does not tokenize, with the error of the first such line and its number from 1. |
| RedisTokens.Tokenize | src-tauri/src/integrations/redis.rs:310-400 | The tokenizing loop yields the specified tokens or error. |
| RedisTokens.Parse | src-tauri/src/integrations/redis.rs:295-308 | The loop over the lines yields the specified commands, or the first failing line. |
| PgArray.RoundTrip | src/lib/pgArray.ts:9-61 | Parsing a printed array gives the items back, for every list of texts and nulls. |
| PgArrayLaws.NestedIsRefused | src/lib/pgArray.ts:9-21 | Text is refused when an element begins with a brace, as the first one or behind any other items, whatever follows. |
| PgArray.QuotedBack | src/lib/pgArray.ts:19-36 | An escaped and quoted text is read back exactly, whatever it contains. |
| PgArray.BareBack | src/lib/pgArray.ts:37-42 | A bare text is read whole, and is the null item exactly when it is NULL in any case. |
| PgArray.ItemBack | src/lib/pgArray.ts:53-60 | A printed item is read back as that item, before a comma or at the end. |
| PgArray.SkipSpaces | src/lib/pgArray.ts:17-43 | Blanks between items are passed over and nothing else. |
| PgArray.ReadQuoted | src/lib/pgArray.ts:19-35 | The loop over a quoted item reads it exactly, or finds it unterminated. |
| PgArray.ReadItem | src/lib/pgArray.ts:18-42 | One item is read as specified. |
| PgArray.ParseArray | src/lib/pgArray.ts:9-49 | The loop accepts exactly the specified texts and yields their items. |
| ParamCut.OpensExactly | src/lib/params.ts:34-86 | What opens at a place, if anything does, is the piece the scanner steps over there: a quoted text to its closing quote, a comment to its end, a dollar body to its tag, `:name` or `{{name}}`. What opens is said without the scanner. |
| ParamCut.CutExactly | src/lib/params.ts:34-86 | A script has exactly one cut in which everything that opens is one piece and every other character is one by itself, and the scanner makes that cut. |
| ParamCut.CutHits | src/lib/params.ts:34-86 | The parameters of such a cut are in order, disjoint and in bounds, and each opens where it starts. |
| ParamCut.HitsAreOutside | src/lib/params.ts:34-86 | No parameter reaches into a piece of another kind: into no quoted text, comment or dollar body. |
| ParamCut.PiecesAndHits | src/lib/params.ts:34-86 | So of every script: its pieces put together are the script and its only cut, and its hits are in order, disjoint, in bounds and parameters. |
| ParamBinding.LiteralConsumed | src/lib/params.ts:89-107 | The literal of a value is skipped as exactly one quoted text, whatever follows, if and only if no unescaped backslash of the value stands before a quote or at its end, and no quote follows the literal. |
| ParamBinding.LiteralAtEnd | src/lib/params.ts:89-107 | At the end of a script the literal is skipped whole if and only if every unescaped backslash of the value stands last, or before no quote, or only quotes follow it. |
| ParamBinding.UndoubledBack | src/lib/params.ts:118-127 | Undoubling the quotes of a literal gives the value back. |
| ParamLiterals.TextIsAlwaysQuoted | src/lib/params.ts:118-127 | Given as text any value is quoted, numbers and keywords as well, and un-doubles to itself; given raw it stays as it is. |
| ParamLiterals.AutoExactly | src/lib/params.ts:118-127 | Given as auto a value is written bare if and only if, trimmed, it is a number or null, true or false in any case; then as it stands, keywords in upper case, and otherwise quoted with its white space. |
| ParamFit.FitsExactly | src/lib/params.ts:34-107 | A piece that is all there is to say of its own text stays that piece where it stands if and only if the characters next to it let it: it is closed or ends the script, no quote goes on, no name grows or begins behind a word, no dash, slash, tag, braces or colon opens. |
| ParamSeams.CutOfPieces | src/lib/params.ts:34-107 | Pieces put side by side are the cut of their text if and only if no row of them clashes: one not closed before another; a quote before the same quote; `-` before `-`, `/` before `*`; `:name` before what a name does not end with, or behind what none may follow; `$`, letters and `$`; `{{`, a name in white space and `}}`; `:` and a name where one may begin. |
| ParamReplaced.NoClashExactly | src/lib/params.ts:129-139 | When pieces of a cut are replaced by cuts, a clash comes about if and only if one does in a row that a border of what is new runs through, or that nothing but a vanished piece parts from the start or end. |
| ParamBound.BindingKeepsCutExactly | src/lib/params.ts:129-139 | Binding leaves the cut of the rest of the script alone if and only if no such row clashes at a bound literal. Whether one does is asked of the pieces of the script and of the literals, each cut by itself, before anything is bound; raw values, empty ones included. |
| ParamApart.ApartBindingIsSafe | src/lib/params.ts:116-139 | Of the script and the values alone: when every bound parameter has white space or nothing on both sides and no `{` before that, and its value is not raw and, if quoted, has no unescaped backslash before a quote or at its end, the rest keeps its cut, and the parameters left are exactly the unbound ones, moved by what the literals before them are longer or shorter. |
| ParamBound.UnboundHitsStay | src/lib/params.ts:129-139 | Whenever no seam clashes and no literal has a parameter of its own, the hits of the bound script are exactly the unbound ones, in order, each moved by the difference in length of the bound ones before it. |
| ParamWitness.MinusSeam | src/lib/params.ts:34-139 | `-:x :y` with -5 becomes `--5 :y`: a comment hides `y`. |
| ParamWitness.TagSeam | src/lib/params.ts:34-139 | `$:x$ :y` with null becomes `$NULL$ :y`: a dollar body takes `y` along. |
| ParamWitness.BracesSeam | src/lib/params.ts:34-139 | `{{ :x }}` with null becomes `{{ NULL }}`: a parameter that was none. |
| ParamWitness.NestedSeam | src/lib/params.ts:34-139 | `{{ a{{x}}b }}` with null becomes `{{ aNULLb }}`: a parameter whose name is partly the literal. |
| ParamWitness.ColonSeam | src/lib/params.ts:34-139 | `:x:y` with the text v becomes `'v':y`: `y` becomes a parameter. |
| ParamWitness.NoNameSeam | src/lib/params.ts:34-139 | `{{x}}:y` with 5 becomes `5:y`: `y` stops being one. |
| ParamWitness.GrownNameSeam | src/lib/params.ts:34-139 | `:a{{x}}` with 5 becomes `:a5`: another name. |
| ParamWitness.QuoteSeam | src/lib/params.ts:34-139 | `'a':x :y` with the text v becomes `'a''v' :y`: two quoted texts merge, and `y` is still found. |
| ParamBinding.NothingBound | src/lib/params.ts:129-139 | When no name is bound, binding is the identity. |
| ParamBinding.BindFromIsBound | src/lib/params.ts:129-139 | Binding from the hits is the script with exactly the bound parameters replaced and every other character kept. |
| ParamBinding.FirstsMembers | src/lib/params.ts:110-114 | The listed names are distinct and are exactly the names of the hits. |
| ParamBinding.FirstsInOrder | src/lib/params.ts:110-114 | They come in the order of their first use. |
| ParamBinding.SkipQuoted | src/lib/params.ts:89-107 | The loop ends where the specified quoted text ends. |
| ParamBinding.Skip | src/lib/params.ts:38-61 | A quote, comment or dollar body is skipped to its specified end, and nothing else is. |
| ParamBinding.Recognize | src/lib/params.ts:34-86 | One step of the scanner ends where the piece ends and reports its hit, if it is one. |
| ParamBinding.Scan | src/lib/params.ts:34-86 | The loop finds exactly the specified hits. |
| ParamBinding.FindNames | src/lib/params.ts:110-114 | The loop collects the names without repetition, in order of first use. |
| ParamBinding.Bind | src/lib/params.ts:129-139 | The replacing loop yields the script with the pieces replaced, though it works on the hits. |
| LibraryFolders.WalkAllOnce | src/lib/libraryTree.ts:117-137 | A walk from the top meets every folder once if its chain of parents reaches the top without the excluded folder, and never otherwise; parent links may be cyclic or dangling. |
| LibraryFolders.WalkTimes | src/lib/libraryTree.ts:117-137 | From any siblings on the way down, each folder is met exactly as often as one of them is its ancestor or itself. |
| LibraryFolders.WalkLevels | src/lib/libraryTree.ts:117-137 | A walk never goes back up. |
| LibraryFolders.NotSeen | src/lib/libraryTree.ts:126-134 | On the way down from the top the guard against cycles never stops the walk. |
| LibraryBuild.BuildListHolds | src/lib/libraryTree.ts:77-92 | The built nodes hold exactly the shown items of the folders met, with or without hiding empty folders, and each count is the number of items under its node. |
| LibraryBuild.Permuted | src/lib/libraryTree.ts:42-47 | Reordering nodes changes neither their items nor their counts. |
| LibraryTree.TreeHolds | src/lib/libraryTree.ts:49-105 | For distinct folder ids: the tree holds exactly the visible items filed at the top or in a folder whose chain of parents ends, and all counts are exact. |
| LibraryTree.NothingLost | src/lib/libraryTree.ts:49-105 | The tree holds every visible item, once, if and only if no visible item is filed in a folder on or under a cycle. |
| LibraryTree.KeptExactly | src/lib/libraryTree.ts:77-92 | A folder is in the tree if and only if it or one below it shows an item, or, when empty folders are not hidden, is an empty one. |
| LibraryTree.WalkIsRooted | src/lib/libraryTree.ts:49-105 | The folders met from the top are exactly those whose chain of parents ends. |
| LibraryTree.GroupFolders | src/lib/libraryTree.ts:62-67 | The loop groups the folders by parent, dangling parents at the top, each group in order. |
| LibraryTree.GroupItems | src/lib/libraryTree.ts:68-72 | The loop groups the items by the folder they are filed in, each group in order. |
| LibraryTree.PlaceItems | src/lib/libraryTree.ts:58-61 | The loop records the last placement of each item whose folder exists in the scope. |
| LibraryExport.GrowInside | src/lib/libraryTree.ts:192-213 | The grow-until-stable loop ends, with the least set of folders that has the root and every folder of the scope whose parent is in it; cyclic links included. |
| LibraryExport.ItemsInFolder | src/lib/libraryTree.ts:192-213 | The exported items are those placed in that least set, in order. |
| LibraryExport.LeastIsSubtree | src/lib/libraryTree.ts:192-213 | For a folder whose chain of parents ends, the least set is the ids of its subtree. |
| LibraryExport.FindNodeIs | src/lib/libraryTree.ts:174-181 | A node is found if and only if its folder is in the tree, and it is that folder's node. |
| LibraryExport.ListFaithful | src/lib/libraryTree.ts:77-105 | In an unfiltered tree every node holds exactly the items and folder ids of its subtree. |
| LibraryExport.ExportMatchesTree | src/lib/libraryTree.ts:103-213 | When each item has at most one placement in the scope, the exported items are the items under the folder's node, and the least set is that node's descendants. |
| LibraryFlat.ListedOnce | src/lib/libraryTree.ts:117-137 | The picker lists each folder once if its chain reaches the top without the excluded folder, and no other. |
| LibraryOrder.SubtreeBehindRoot | src/lib/libraryTree.ts:117-137 | Directly behind each listed folder stand, in one piece, exactly the listed folders below it. |
| LibraryFlat.ListedPlaced | src/lib/libraryTree.ts:117-137 | Each is listed with its true depth and its own path. |
| LibraryFlat.TrailIsChain | src/lib/libraryTree.ts:140-152 | The names collected upwards are the whole chain of parents. |
| LibraryFlat.FlatPathIsJoined | src/lib/libraryTree.ts:126-134 | The picker's path is the joined names if and only if the topmost name is not empty, or the folder is at the top. |
| LibraryFlat.PathsAgree | src/lib/libraryTree.ts:117-152 | With one scope a listed path equals the folder's own path if and only if its topmost folder has a name, or it is at the top. |
| LibraryFlat.MoveKeepsAcyclic | src/lib/libraryTree.ts:117-137 | Moving a folder under a target keeps the forest free of cycles if and only if the target is not the folder or below it. |
| LibraryFlat.ListedTargets | src/lib/libraryTree.ts:117-137 | The picker, with the moved folder excluded, lists exactly the targets that keep it so. |
| LibraryFlat.WalkInto | src/lib/libraryTree.ts:126-134 | The recursive walk appends exactly the specified entries, on any parent links. |
| LibraryFlat.ListFolders | src/lib/libraryTree.ts:117-137 | The whole list is the specified one. |
| LibraryFlat.PathOf | src/lib/libraryTree.ts:140-152 | The upward loop ends on any parent links and joins the specified names. |
| QueryRunsStore.Store.constructor | src/stores/queryRuns.ts:153-154 | A new store satisfies the invariant: nothing runs and nothing was sent. |
| QueryRunsStore.Store.Start | src/stores/queryRuns.ts:164-230 | Refused exactly when the tab is running, and then nothing changes. Otherwise the run is on screen in that tab, over the results from before, which the call remembers, and no other tab changes; the invariant is kept. |
| QueryRunsStore.Store.Apply | src/stores/queryRuns.ts:171-194 | A frame of the run on screen leaves its tab showing exactly what that run has sent so far; one of any other run changes nothing. The invariant is kept. What that amounts to is `QueryRunsFrames.FoldExactly`. |
| QueryRunsStore.Store.Succeed | src/stores/queryRuns.ts:164-230 | A run on screen leaves its tab at rest with its statements and summary; any other changes nothing. The invariant is kept. |
| QueryRunsStore.Store.Fail | src/stores/queryRuns.ts:195-230 | The user is asked exactly when the start was refused without a plan, and the tab then shows what it showed when the run began; otherwise a run on screen ends at rest with the error. The invariant is kept exactly when the refusal is none of those that spoil it. |
| QueryRunsStore.Store.Stop | src/stores/queryRuns.ts:232-242 | The run to cancel is the one on screen in the tab, asked for exactly when the tab runs and is not stopping already; no results change. |
| QueryRunsStore.Store.Rerun | src/stores/queryRuns.ts:244-285 | A statement is run again only in a tab at rest, one at a time, of results that have it; a tab's mark is always that of a rerun still going on, if it was before. |
| QueryRunsStore.Store.ApplyRerunFrame | src/stores/queryRuns.ts:244-285 | An answer changes exactly its statement, in the results it belongs to; it never reaches a planned run of a tab that was not closed since. The invariant is kept exactly when no planned run is overwritten. |
| QueryRunsStore.Store.EndRerun | src/stores/queryRuns.ts:244-285 | The mark goes from the results the rerun is of, nothing else changes, and no mark without a rerun is left by this. |
| QueryRunsStore.Store.Forget | src/stores/queryRuns.ts:289-294 | A closed tab has no entry, none of its runs is on screen any more, and no other tab changes. |
| QueryRunsSafety.BreaksExactly | src/stores/queryRuns.ts:142-294 | An event makes some tab stop showing its own run if and only if it is a refusal, from before the tab was closed, while another start is running there, or a rerun's answer that changes a planned run it does not belong to. Both can be asked before the event. |
| QueryRunsSafety.DoKeepsInvExactly | src/stores/queryRuns.ts:142-294 | An event keeps the whole invariant if and only if it is none of these and no late refusal that puts back results older than those some rerun belongs to. |
| QueryRunsLaws.RunKeepsInvExactly | src/stores/queryRuns.ts:142-294 | It holds all along a run if and only if no event of the run is one of those. |
| QueryRunsLaws.ClosedForGood | src/stores/workspace.ts:764-767 | Query tabs never come back under their id. When no tab is started or rerun again after it was closed, no event is one of those, whatever frames, refusals and answers come in late. |
| QueryRunsLaws.ShowsItsOwnFrames | src/stores/queryRuns.ts:164-230 | In every such run, whatever comes in late, a tab whose run has been planned holds exactly the fold of that run's own frames, under its own script; statement by statement this is `ShowsWhatFramesTell`. |
| QueryRunsFrames.FoldExactly | src/stores/queryRuns.ts:171-194 | For every list of frames with a plan, without the update functions: its statements are those of the last plan, each pending until a later frame names it, running if the last frame that does says it starts, otherwise in the state that frame reports; time, outcome and error are those of its last report; the summary is the last one. |
| QueryRunsFrames.NoPlanShowsNothing | src/stores/queryRuns.ts:171-194 | Frames without a plan amount to no statements. |
| QueryRunsFrames.ShowsWhatFramesTell | src/stores/queryRuns.ts:164-230 | In every such run a tab whose run on screen has a plan shows each statement as that run's own frames tell. |
| QueryRunsLaws.OneStartInFlight | src/stores/queryRuns.ts:164-230 | In every such run, while a tab stays open at most one start is in flight for it, and it is the one on screen. |
| QueryRunsLaws.LateFramesChangeNothing | src/stores/queryRuns.ts:142-230 | A frame, success or failure of a run that is over or whose tab was closed changes nothing; a refusal of it changes nothing if and only if the tab shows what it showed when that run began. |
| QueryRunsSafety.OwnRerunMisses | src/stores/queryRuns.ts:244-285 | A rerun that was overtaken by a new run can no longer match that run's results. |
| QueryRunsSafety.RefusedIsPrevious | src/stores/queryRuns.ts:214-218 | A refusal puts back exactly the entry from before the start, whatever happened since. |
| QueryRunsLaws.RefusalRestores | src/stores/queryRuns.ts:214-218 | That is what a refused run on screen with nothing planned leaves, and no other tab changes. |
| QueryRunsLaws.RefusedStartUndone | src/stores/queryRuns.ts:164-230 | So a start followed at once by a refusal is the identity on the runs. |
| QueryRunsLaws.AnswersLostExactly | src/stores/queryRuns.ts:164-285 | A refusal of a start that has sent nothing loses answers of reruns if and only if some statement was answered since the start and its last answer is news; each statement held that last answer before. |
| QueryRunsLaws.MarksTrueExactly | src/stores/queryRuns.ts:164-285 | An event leaves a rerun mark without a rerun if and only if it is a refusal that puts back the mark of a rerun that has ended meanwhile. |
| QueryRunsLaws.SkippedRestIs | src/stores/queryRuns.ts:164-230 | Exactly the statements that were pending or running become skipped. |
| QueryRunsLaws.BrokenRunEnds | src/stores/queryRuns.ts:164-230 | A failing run ends at rest with the error, no statement left pending or running, and every finished one kept. |
| QueryRunsFrames.BrokenRunSkips | src/stores/queryRuns.ts:210-230 | When a planned run breaks, exactly the statements without an answer become skipped; every other one keeps the state, time, outcome and error of its last report, and all keep their index, text and place. |
| QueryRunsLaws.LateAnswerIsReached | src/features/editor/QueryPane.tsx:284-307 | Without that assumption, from an empty store: a tab is closed while one rerun is going on and a start waits for its transaction; the start then begins, and the answer is written into its results. |
| QueryRunsLaws.LateRefusalIsReached | src/features/editor/QueryPane.tsx:284-307 | Likewise a refusal from before the tab was closed takes such a late start off the screen. |
| QueryRunsLaws.RevivedMarkIsReached | src/stores/queryRuns.ts:164-285 | From an empty store, with the tab open all along: a refused start brings back the mark of a rerun that has ended, loses its answer, and blocks every later rerun of that tab. |
| MasterKeyStore.AppState.constructor | src-tauri/src/state.rs:108-120 | A fresh install has no key, no cache and no secret, and satisfies the invariant: all counted secrets under one key, which the cache and the slot agree with. |
| MasterKeyStore.AppState.LookUp | src-tauri/src/adapters/keyring.rs:163-188 | A key found opens every counted secret; missing means a readable empty slot, and an unreadable one is kept apart. |
| MasterKeyStore.AppState.Create | src-tauri/src/adapters/keyring.rs:190-206 | A created key is that of no secret and is stored, or nothing is stored when the write fails. The invariant is kept if and only if nothing was stored, or nothing was counted and nothing cached. |
| MasterKeyStore.AppState.SealedSecretCount | src-tauri/src/store/connections.rs:392-408 | The count is 0 exactly when the keys of AI profiles are all there is. |
| MasterKeyStore.AppState.ClearSealedSecrets | src-tauri/src/store/connections.rs:412-423 | Clearing leaves nothing counted, exactly the keys of AI profiles, and the invariant. |
| MasterKeyStore.AppState.ResolveMasterKey | src-tauri/src/state.rs:164-179 | A usable key is in the slot and opens every counted secret; lost means a readable empty slot with something counted; and with something counted nothing changes. |
| MasterKeyStore.AppState.MasterKey | src-tauri/src/state.rs:147-155 | A key returned opens every counted secret and is cached from then on; a cached one is returned without a change. The invariant is kept. |
| MasterKeyStore.AppState.CredentialStatus | src-tauri/src/state.rs:184-196 | Not lost means a key is cached that opens every counted secret; lost means nothing changed, the slot is empty, and the number of secrets told is the count, more than 0. |
| MasterKeyStore.AppState.ResetCredentials | src-tauri/src/state.rs:202-210 | A reset succeeds if and only if nothing is cached, the readable slot is empty, something is counted and the slot can be written; then nothing is counted and the new key is cached and stored. The invariant is kept even when it fails halfway. |
| MasterKeyStore.AppState.Seal | src-tauri/src/services/ai_profiles.rs:146-149 | A sealed secret is under a key that opens every counted secret; without a key no secret changes. The invariant is kept. |
| MasterKeySafety.ResetExactly | src-tauri/src/state.rs:202-210 | A reset succeeds if and only if nothing is cached, the readable slot is empty, something counted is sealed and the slot can be written; it then ends not lost, under a new key. |
| MasterKeySafety.DoKeepsInv | src-tauri/src/state.rs:147-210 | Every command, outage, restart and loss of the stored key keeps the counted secrets under one key, equal to the cached and to the stored one where there is one. |
| MasterKeySafety.RunKeepsInv | src-tauri/src/state.rs:147-210 | So does every finite run. |
| MasterKeySafety.KeyOpensCounted | src-tauri/src/state.rs:147-155 | In every run a key obtained opens every counted secret. |
| MasterKeySafety.CreatedOnlyWhenNothingSealed | src-tauri/src/state.rs:164-210 | In every run a new key is stored only when nothing is counted, or by a reset that has just cleared what was. |
| MasterKeySafety.StoresExactly | src-tauri/src/state.rs:147-210 | An event stores a new key exactly when, before it, nothing is cached, the slot can be written, and either nothing is counted and no key can be read, or it is a reset with something counted and a readable empty slot. |
| MasterKeySafety.AllUnderOneKeyExactly | src-tauri/src/store/connections.rs:392-424 | All secrets, AI profile keys included, stay under one key if and only if the event does not store a new key, in this sense, while some profile has a key that it does not replace. |
| MasterKeySafety.ProfileKeyOrphaned | src-tauri/src/store/connections.rs:392-424 | That happens: a profile key alone, a lost slot and a restart end in a new key, a status of not lost, and a secret no key opens. |

## Left out

- QueryRunsLaws.ShowsItsOwnFrames: is stated for tabs that are neither started nor rerun again after they were closed, as query tabs never come back; what can happen otherwise is stated exactly by `BreaksExactly`.
- QueryRunsLaws.AnswersLostExactly: is stated for a refused start that has sent nothing, because a run's plan is the first thing it sends (`src-tauri/src/services/query.rs:105-115`).
- Workspace.Store.RawWrite: lets the subscriber look at most twice, because with a list that does not settle the program does not come to an end; that it then goes on for ever is `SubscriberSettlesExactly`.
- ParamBound.UnboundHitsStay: says one way only that no parameter is lost or won; two quoted texts that merge change the cut and yet leave the parameters alone (`ParamWitness.QuoteSeam`).
- SqlHidden.LiteralHides: is stated behind text in which nothing opens, as are its two neighbours; behind any other text the same follows from `EndsExactly`, which has no condition.
- FilterGrammar.ParsesExactly: says when a text is refused and not with which error; that the error points inside the text is `ErrorsPointInside`.
- RedisLaws.SingleRead: leaves out texts that end in a backslash, which cannot be written in single quotes at all (`SingleStaysOpen`).
- MasterKeySafety.KeyOpensCounted: speaks of the counted secrets only, because AI profile keys are neither counted nor cleared (`ProfileKeyOrphaned`).
- LibraryTree.NothingLost: is stated for distinct folder ids; with duplicate ids a folder may be listed under two parents.
- LibraryExport.ExportMatchesTree: is stated for a folder whose chain of parents ends and for items with at most one placement, because elsewhere the tree and the export differ by design: the last placement wins in the tree, any placement counts in the export.
- Ids of tabs, panes and dividers are numbers; the texts `p<n>` and `s<n>` are not modelled, and a pane and a divider may bear the same number in the model.
- Of a tab only its id, kind and connection are kept; page, catalogs, sessions, saved queries, chats and all other fields of the workspace store are not modelled.
- The clock behind the double-click window, and the user's answer when a transaction would be left, are inputs of the actions.
- Restored layouts and the start-up that reads them: a stored layout is not checked by the code for distinct ids, live focus or pane count, so runs begin with the first layout of a window.
- `Promote`, `PopClosed`, `CloseToRight` and `CloseOthers` as methods of the store object: they are actions of the state machine and covered by its invariant; writing the tabs to storage is not modelled.
- Drop zones from mouse positions, and the panes along the top edge: plain arithmetic and one recursion.
- Divider ratios are reals with NaN and the infinities as separate inputs; rounding of floating-point numbers is not modelled.
- The nesting depth of `top_level_words` is unbounded, where the code uses a 32-bit counter.
- Dollar-quoted bodies inside `top_level_words`: only the scanner knows them, so nothing is claimed about their contents in the classification.
- Which characters are alphanumeric beyond ASCII, and how letters beyond ASCII change case, is a parameter: any table that is right on ASCII will do.
- Positions in filters, parameters and Redis lines count characters; only the spans of statements count UTF-16 code units.
- The wording of error messages, and filter suggestions while typing.
- Names of object prototype members (`constructor`, say) as parameter names, for which a lookup in a JavaScript object finds something even when nothing was bound.
- Locale collation: each sort is some fixed rearrangement, so nothing is said about which one.
- The failing branch of `stop`, which writes back an earlier snapshot; cancelling is assumed to succeed.
- Of a run's parameters the schema, the session and the flags for stopping and splitting; of its statements the intent. `pieces` is kept with the parameters only. Links to saved queries and collapsed panels are not modelled.
- The key file that can stand in for the OS keychain, the in-memory provider, and commands that run at the same time: there is one slot, and commands come one after the other.
- Cryptography is reduced to which key a secret was sealed under; a new key differs from all earlier ones.
- Database errors of the store of connections: reading the count and clearing always succeed.
- Commands, windows, themes, and the tables of engines, commands and catalogs.
