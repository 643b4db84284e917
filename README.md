# A verified model of the dlz calendar and concept-map front end

dlz is a React front end. It has a weekly task calendar with a daily
retrospective chat, a 2-D concept graph of a philosopher's ideas, a 3-D
concept map, and an ontology viewer. This project models the discrete logic
behind those screens in Dafny: graph search and levels, selection styling,
graph construction, list updates, form and chat state machines, and the
landing page's typing counter. It also proves the properties that logic
promises.

There is one Dafny module per source component:

- `OntologyGraph` (`ontology_graph.dfy`) covers `findDescendants` (a breadth-first search over a queue) and `calculateNodeLevels` (a parent map, then a recursive level computation with a `visited` guard). Both are imperative methods with loop invariants and are proved against reachability over the edge list.
- `OntologyView` (`ontology_view.dfy`) covers:
  - the level and relation palettes;
  - `updateElementsStyle`, which restyles every node and edge from the descendant set and levels;
  - the click-to-toggle selection and the pane click.
- `MapGraph` (`map_graph.dfy`) covers, for the 3-D map:
  - the edge-to-index resolution loop;
  - the selected/connected classification;
  - `isSelectedEdge`;
  - the edge opacity and width formulas.
- `MapAnimation` (`map_animation.dfy`) covers:
  - the target-state table and the linear blend;
  - the `nodeStates` map as a class whose render pass updates it in place;
  - the selection and deselection progress counters;
  - the label opacity.
- `MapDrag` (`map_drag.dfy`) covers the drag-to-pan handlers and the scene offset.
- `HomeGraph` (`home_graph.dfy`) covers `createNodes` and `createLinks`. The `Math.random()` draws are an input sequence. `createLinks` throws when a sub or related concept has no possible parent, and that is modelled as a `Failure`.
- `Tasks` (`tasks.dfy`) covers the task list operations, the event style and `taskToEvent`.
- `CalendarView` (`calendar.dfy`) covers the event lookup behind a checkbox click and the calendar's own style getter.
- `TaskForm` (`task_form.dfy`) covers the new-task draft and modal as a class, with validation, conversion and reset.
- `Retrospective` (`retrospective.dfy`) covers the five-question chat as a class: the message log, the reflection fields, the question index and the queue of pending delayed replies.
- `Landing` (`landing.dfy`) covers the user number, the greeting text and the typing interval.
- `Wrappers` (`wrappers.dfy`) holds `Option` and `Result`.

Inputs the code takes from its environment are parameters:

- date parsing: `new Date(s)` as a function to `Time`, `toISOString` as a function to `Option<string>`, and `toDateString` as a function to `string`;
- `Math.random()` draws;
- eased progress values;
- camera distances;
- pointer coordinates;
- frame deltas.

Points where the code behaves differently from what a reader might expect; the model follows the code as written:

- **Deselect timer.** On the 3-D map the 300 ms deselection timer clears the selection unconditionally, even if a node was selected while it ran (`DeselectTimerFires`).
- **"Connected" nodes.** In the map classification, "connected" means a direct neighbour in either direction, not a descendant.
- **Empty selection id.** In the ontology view, `!selectedNodeId` also treats the empty id as "nothing selected" (`NoSelection`).
- **Missing highlighted colour.** A highlighted node's background is `LEVEL_COLORS[level]` with no fallback, so it is an `Option` (`NodeStyle.background`).
- **Shared `visited` set.** `calculateLevel` shares one `visited` set across the recursive calls for a node's parents, so a level depends on parent order. The model keeps that order (parents are listed in first-edge order, like the JS `Set`). It proves only what holds regardless: level 0 exactly for nodes without an incoming edge.
- **Calendar styles.** The calendar page passes its own `eventStyleGetter` to the calendar as `eventPropGetter` (src/NewCalendarComponent.js:122). The calendar component forwards that prop, and it hands its own transition-bearing getter over as a separate `eventStyleGetter` prop (src/Calendar.js:62, 65). Both getters are modelled.
- **Unwired `handleChange`.** The form's `handleChange` is not wired to any input. Each input has an inline setter with the same per-field effect, which `TaskFormState.HandleChange` models.

## Model

| member | source | states |
|---|---|---|
| OntologyGraph.FindDescendants | src/components/OntologyVisualizer.js:153-170 | The result contains the start node, is closed under outgoing edges, and holds exactly the nodes reachable from the start by source-to-target paths; the loop terminates although the queue may hold duplicates |
| OntologyGraph.SinkReachesOnlyItself | src/components/OntologyVisualizer.js:153-170 | A start node with no outgoing edge reaches only itself, so its descendant set is exactly {start} |
| OntologyGraph.ClosedHoldsReachable | src/components/OntologyVisualizer.js:162-166 | Any set that contains the start and is closed under edges contains every node reachable from the start |
| OntologyGraph.BuildChildToParents | src/components/OntologyVisualizer.js:37-45 | A node has an entry iff some edge targets it, and its entry lists exactly the sources of its incoming edges, each once, in first-edge order |
| OntologyGraph.ParentsAreSources | src/components/OntologyVisualizer.js:40-45 | The parent list of t holds exactly the sources of edges into t, without repeats, and is non-empty iff t has an incoming edge |
| OntologyGraph.CalculateLevel | src/components/OntologyVisualizer.js:48-59 | An already visited node gets 0 and leaves `visited` unchanged; otherwise the node is added to `visited`, its level is 0 iff it has no parents, and the recursion terminates with the level bounded by the unvisited ancestors |
| OntologyGraph.NodeLevel | src/components/OntologyVisualizer.js:52-63 | With a fresh `visited` set, a node's level is 0 iff no edge targets it, and at least 1 otherwise |
| OntologyGraph.RootIffNoIncoming | src/components/OntologyVisualizer.js:52-53 | A node has no parent entry (or an empty one) iff it has no incoming edge |
| OntologyGraph.CalculateNodeLevels | src/components/OntologyVisualizer.js:35-67 | Every listed node gets a level entry and no other id does; a level is 0 exactly for nodes without an incoming edge; the computation terminates on cyclic edge sets |
| OntologyView.LevelColorEntry | src/components/OntologyVisualizer.js:16-22 | The level palette is defined exactly for levels 0 to 4 |
| OntologyView.LevelColor | src/components/OntologyVisualizer.js:16-22 | The colour falls back to '#ffffff' exactly for levels outside 0..4, otherwise it is the palette entry, and level 0 alone gets '#e3f2fd' |
| OntologyView.RelationColor | src/components/OntologyVisualizer.js:25-32 | A known relation gets its palette colour, any other relation '#999' |
| OntologyView.FallbackColorOnlyForUnknown | src/components/OntologyVisualizer.js:25-32 | '#999' is not in the palette, so an edge is grey exactly when its relation is unknown, and gets a palette colour exactly when it is known |
| OntologyView.UpdateElementsStyle | src/components/OntologyVisualizer.js:180-233 | Only styles change (lengths, ids, order, data preserved); empty lists come back unchanged. With no selection every node has opacity 1 and border '1px solid #777', with the top-level colour exactly for nodes without incoming edges, and every edge gets its relation colour at opacity 1. With a selection a node has opacity 1 iff it is a descendant (else 0.5 with '#f5f5f5' and '1px solid #ccc'), and an edge has opacity 1 with its relation colour iff either endpoint is a descendant (else '#ccc' at 0.3) |
| OntologyView.OnNodeClick | src/components/OntologyVisualizer.js:173-177 | Clicking the selected node clears the selection, clicking any other node selects it; the info panel always gets the clicked node's data |
| OntologyView.OnPaneClick | src/components/OntologyVisualizer.js:392-395 | A pane click clears both the selection and the info panel |
| OntologyView.ClickTwice | src/components/OntologyVisualizer.js:175 | Clicking the same node twice leaves that node selected when it started selected, and nothing selected otherwise |
| OntologyView.ClickTwiceFromNoSelection | src/components/OntologyVisualizer.js:175 | When nothing was selected, clicking a node twice leaves nothing selected again |
| MapGraph.FindIndex | src/pages/MapPage.js:49-50 | `findIndex` returns -1 iff no node has the id, otherwise the first index holding it |
| MapGraph.ResolveEdges | src/pages/MapPage.js:48-54 | The edge loop produces exactly the resolved connection list |
| MapGraph.ResolvedIsKeptEdgesInOrder | src/pages/MapPage.js:48-54 | The connections are exactly the edges whose two ids both occur among the nodes, in edge order, each as the pair of node indices |
| MapGraph.ResolvedFirstIndices | src/pages/MapPage.js:49-52 | Each connection holds in-range indices of the first nodes carrying its edge's source and target ids |
| MapGraph.Joins | src/pages/MapPage.js:185-188 | `some` holds iff some edge joins the two ids in either direction |
| MapGraph.JoinsSymmetric | src/pages/MapPage.js:185-188 | Being connected is symmetric |
| MapGraph.Classify | src/pages/MapPage.js:181-202 | One entry per node; with no selection all entries are unselected and unconnected; with a selection a node is selected iff it carries the selected id and connected iff some edge joins it to the selected node in either direction |
| MapGraph.HighlightedEdgeMatchesClassification | src/pages/MapPage.js:373-376 | A highlighted connection has the selected node at one end, and each end is selected or connected |
| MapGraph.EdgeOpacity | src/pages/MapPage.js:381 | A highlighted edge's opacity stays within [0.1, 0.8] for progress in [0, 1]; any other edge has 0.2 |
| MapGraph.EdgeWidth | src/pages/MapPage.js:382 | Edge widths stay within [0.5, 2] and a highlighted edge is never thinner than an ordinary one |
| MapGraph.HighlightOvertakesAt | src/pages/MapPage.js:381 | A highlighted edge is brighter than an ordinary one exactly when the eased progress exceeds 1/7 |
| MapAnimation.TargetState | src/pages/MapPage.js:408-418 | Selected gives (0.8, 1.0, 2.0), connected but not selected (0.5, 0.9, 1.0), otherwise (0.2, 0.3, 0.3) |
| MapAnimation.TargetStatesOrdered | src/pages/MapPage.js:408-418 | Every component grows from neither to connected to selected, and selection wins over connection |
| MapAnimation.BlendBetween | src/pages/MapPage.js:421-423 | For progress in [0, 1] a blended value lies between current and target; progress 0 gives current and 1 gives target |
| MapAnimation.BlendStateBetween | src/pages/MapPage.js:421-423 | The same for size, opacity and emissive together |
| MapAnimation.FrameKeys | src/pages/MapPage.js:396-430 | A render pass adds an entry for every node and leaves the entries of other ids unchanged |
| MapAnimation.FrameValues | src/pages/MapPage.js:397-430 | With distinct ids, each node's new state is the blend of its state before the pass (or the default) towards its class's target |
| MapAnimation.FrameAtFullProgress | src/pages/MapPage.js:421-430 | At full progress every node takes its target look |
| MapAnimation.NodesWithoutTransitionSettleIdle | src/pages/MapPage.js:404-430 | A node past the end of the transition list defaults to neither selected nor connected and, at full progress, settles on the idle look (0.2, 0.3, 0.3) |
| MapAnimation.FrameStaysBetween | src/pages/MapPage.js:421-430 | For progress in [0, 1] every node's new state lies between its old state and its target |
| MapAnimation.FrameIdempotentAtFullProgress | src/pages/MapPage.js:396-430 | After a full-progress pass, further passes with the same classes change nothing |
| MapAnimation.NodeStates.SeedDefaults | src/pages/MapPage.js:302-311 | Every node without a state gets the default look; existing states are untouched; no other id gains an entry |
| MapAnimation.NodeStates.RenderFrame | src/pages/MapPage.js:396-430 | The in-place map update over all nodes yields the pass described by `FrameAfter` |
| MapAnimation.AdvanceProgress | src/pages/MapPage.js:322-326 | The progress becomes exactly 1 iff the step reaches 1, and for non-negative deltas it never decreases and never exceeds 1 |
| MapAnimation.AdvanceDeselect | src/pages/MapPage.js:351 | `Math.min(1, d + 3·delta)`: never above 1 or above the unclamped step, and equal to one of them |
| MapAnimation.SelectionAnimation.SelectionEffect | src/pages/MapPage.js:299-317 | On a selection change the missing node states are seeded, the selection is remembered and the progress restarts at 0 with the animation running; otherwise nothing changes |
| MapAnimation.SelectionAnimation.Tick | src/pages/MapPage.js:320-328 | While animating the progress advances by 0.8·delta clamped at 1, and the animation stops exactly when it reaches 1; later frames leave it at 1; the progress stays in [0, 1] |
| MapAnimation.SelectionAnimation.DeselectTick | src/pages/MapPage.js:349-353 | While deselecting the deselection progress advances clamped at 1, and it always stays in [0, 1] |
| MapAnimation.SelectionAnimation.BackgroundClick | src/pages/MapPage.js:335-346 | A click that moved more than 2 pixels does nothing; a click on a non-node mesh starts the deselection at 0 and schedules the timer |
| MapAnimation.SelectionAnimation.DeselectTimerFires | src/pages/MapPage.js:341-344 | The timer clears the selection and the deselecting flag, whatever the selection is by then |
| MapAnimation.SelectionAnimation.SelectNode | src/pages/MapPage.js:436-439 | A click on a node sphere selects that node and nothing else changes |
| MapAnimation.LabelBaseOpacity | src/pages/MapPage.js:466-485 | With a selection the base is 1, 0.9 or 0.2 by class, idle it is 0.7, and for eased progress in [0, 1] it always lies in [0.2, 1] |
| MapAnimation.DeselectFadeJoinsPhases | src/pages/MapPage.js:472-484 | The deselection-fade formula, taken as a function of the eased progress, starts at each class's selected-phase value and ends at the idle 0.7 (a statement about the formula, not about a fade shown on screen) |
| MapAnimation.LabelOpacity | src/pages/MapPage.js:487-493 | Below distance 30 the opacity is the base value, above 50 it is 0, and it always lies in [0, base] |
| MapAnimation.LabelFadeMonotone | src/pages/MapPage.js:487-493 | A label never gets brighter as its distance grows |
| MapDrag.GroupPosition | src/pages/MapPage.js:357 | The scene offset is the camera offset divided by 100, with y negated |
| MapDrag.GroupPositionInjective | src/pages/MapPage.js:357 | Equal scene offsets come only from equal camera offsets |
| MapDrag.DragPan.MouseDown | src/pages/MapPage.js:227-236 | Only a press on the canvas starts a drag, with the start point set to pointer minus camera; the camera never moves |
| MapDrag.DragPan.MouseMove | src/pages/MapPage.js:238-246 | The pointer is always recorded; while dragging the camera becomes pointer minus start point; otherwise it does not move |
| MapDrag.DragPan.MouseUp | src/pages/MapPage.js:248-250 | Releasing ends any drag and moves nothing |
| MapDrag.DragPan.PressAndMove | src/pages/MapPage.js:227-246 | A press followed by a move of (dx, dy) pans the camera by exactly (dx, dy), so moving back to the press point restores the previous offset |
| HomeGraph.CreateNodes | src/pages/home/HomePage.js:39-73 | An absent philosopher gives []; otherwise the centre node (size 15, pinned) comes first, then the main, sub and related concepts in input order with groups 2, 3, 4, sizes 5, 4, 3, their own ids and names and the colours '#29b6f6', '#66bb6a', '#ba68c8', 1 + m + s + r nodes in all, only the centre pinned |
| HomeGraph.FilterMembers | src/pages/home/HomePage.js:105-130 | `filter` keeps exactly the nodes of the given groups |
| HomeGraph.PickIndex | src/pages/home/HomePage.js:105-130 | `Math.floor(r · len)` is an index in range for r in [0, 1) |
| HomeGraph.TreeLinks | src/pages/home/HomePage.js:105-130 | One link per target, in target order, into that target, from the candidate at `floor(draw * candidates)` (so from some candidate), with the given value and colour |
| HomeGraph.CreateLinks | src/pages/home/HomePage.js:76-133 | The link builder fails exactly when a sub concept has no main concept or a related concept has no main or sub concept, and otherwise returns the link list in the source's push order |
| HomeGraph.MainConceptLinks | src/pages/home/HomePage.js:81-100 | Every main concept gets a value-3 link from the centre, and every ordered pair of main concepts with different ids gets a value-2 link, so links exist in both directions |
| HomeGraph.SubConceptHasOneParent | src/pages/home/HomePage.js:105-116 | With distinct ids, each sub concept has exactly one incoming link, of value 2, from some main concept |
| HomeGraph.RelatedConceptHasOneParent | src/pages/home/HomePage.js:119-130 | With distinct ids, each related concept has exactly one incoming link, of value 1, from some main or sub concept |
| HomeGraph.LinkCount | src/pages/home/HomePage.js:76-133 | With distinct ids there are m + m(m-1) + s + r links |
| Tasks.AddTask | src/NewCalendarComponent.js:43-45 | The list grows by one, the new task is last and the earlier tasks are unchanged |
| Tasks.DeleteRemovesExactlyIndex | src/NewCalendarComponent.js:47-49 | Deleting an index in range removes exactly that task and keeps the others in order; any other index leaves the list unchanged |
| Tasks.ToggleTaskCompletion | src/NewCalendarComponent.js:59-66 | Only the task at the index changes, and only in its completed flag; the length is kept |
| Tasks.ToggleTwiceIsIdentity | src/NewCalendarComponent.js:59-66 | Toggling the same index twice restores the list |
| Tasks.ToggleOutOfRangeIsNoOp | src/NewCalendarComponent.js:59-66 | An index out of range changes nothing |
| Tasks.CompletedCountToggle | src/NewCalendarComponent.js:59-66 | A toggle in range changes the number of completed tasks by exactly one, up or down |
| Tasks.TaskEventStyle | src/NewCalendarComponent.js:68-82 | The background is '#4CAF50' iff the task is completed, else '#3174ad'; no transition |
| Tasks.TaskToEvent | src/NewCalendarComponent.js:84-90 | The event keeps title, completed flag and description, and its start and end are the parsed times |
| Tasks.TasksToEvents | src/NewCalendarComponent.js:120 | The calendar's events correspond one to one, by position, to the tasks |
| CalendarView.FindEvent | src/Calendar.js:11-14 | -1 iff no event has the clicked title and start instant; otherwise the earliest matching position |
| CalendarView.HandleSelectEvent | src/Calendar.js:9-18 | The toggle is requested iff some event matches, and at the earliest match; an event whose start is not a valid date is never matched (NaN equals nothing) |
| CalendarView.SelectTogglesEarliestMatch | src/Calendar.js:9-18 | A click toggles exactly one task, the earliest matching one even with duplicates, and leaves everything else; with no match the task list is unchanged |
| CalendarView.CalendarEventStyle | src/Calendar.js:35-49 | The background is '#4CAF50' iff completed, else '#3174ad'; the style equals the page's apart from the 0.3 s colour transition |
| TaskForm.WithField | src/TaskList.js:16-22 | Setting a field gives it the new value and leaves the other fields unchanged |
| TaskForm.Submit | src/TaskList.js:24-39 | A draft missing title, date, start or end time is rejected; otherwise a failed date conversion throws; otherwise the task handed to `addTask` carries every draft field plus the converted start and end times |
| TaskForm.DescriptionNotRequired | src/TaskList.js:25 | The description plays no part in the rejection |
| TaskForm.FilledDraftPassesGuard | src/TaskList.js:25 | Filling the four required fields gets an empty draft past the guard |
| TaskForm.TaskFormState.HandleChange | src/TaskList.js:16-22 | Only the named field changes; the modal flag is kept |
| TaskForm.TaskFormState.HandleSubmit | src/TaskList.js:24-49 | A rejected or failing submit leaves the draft and the modal as they were; a successful one yields the one task to add, resets the draft to empty strings with `completed` false and closes the modal |
| TaskForm.TaskFormState.OpenModal | src/TaskList.js:56 | The add button opens the modal without touching the draft |
| TaskForm.TaskFormState.CloseModal | src/TaskList.js:149-162 | The close button and the overlay close the modal without touching the draft |
| Retrospective.WithAnswer | src/Retrospective.js:50-54 | The field of question q gets the answer and the other four fields are unchanged |
| Retrospective.ReplyTo | src/Retrospective.js:57-67 | The reply is the next question, or the closing message at the last question |
| Retrospective.TodaysTasksMembers | src/Retrospective.js:29-32 | The listed tasks are exactly those whose start falls on the shown day |
| Retrospective.TodaysTasksSingle | src/Retrospective.js:29-32 | One task is listed once when its start falls on the shown day, and not at all otherwise |
| Retrospective.TodaysTasksAppend | src/Retrospective.js:29-32 | Filtering a concatenation is concatenating the filtered parts, so the list keeps task order and repetitions |
| Retrospective.TaskLine | src/Retrospective.js:33-35 | A line is "- ✓ title" for a completed task and "- ○ title" otherwise |
| Retrospective.TaskListMessage | src/Retrospective.js:33-36 | The list message is the header followed by the same-day lines joined by line breaks |
| Retrospective.NoTasksTodayGivesHeaderOnly | src/Retrospective.js:29-36 | Without a same-day task the list message is the header alone |
| Retrospective.ListingHasOneLinePerTask | src/Retrospective.js:33-36 | With single-line titles the joined list has exactly one line per same-day task |
| Retrospective.RetrospectiveChat.AddMessage | src/Retrospective.js:39-41 | The log only grows, by one message at its end |
| Retrospective.RetrospectiveChat.HandleStart | src/Retrospective.js:25-37 | Starting sets the flag and appends the first question and then the task-list message |
| Retrospective.RetrospectiveChat.TypeInput | src/Retrospective.js:122 | The input text is replaced by the typed value and nothing else changes |
| Retrospective.RetrospectiveChat.HandleSendMessage | src/Retrospective.js:43-70 | Blank input changes nothing; otherwise exactly one user message equal to the input is appended, the current question's field is set and the others kept, the index moves on below the last question and stays at 4 there, the reply is scheduled and the input cleared; the index stays in [0, 4] |
| Retrospective.RetrospectiveChat.DeliverReply | src/Retrospective.js:59-66 | A fired timer appends its reply as an assistant message |
| Landing.UserId | src/pages/landing/LandingPage.js:10 | For a random draw in [0, 1) the user number lies in [10000000, 99999999] |
| Landing.DecimalRoundTrip | src/pages/landing/LandingPage.js:19 | The decimal text of the user number reads back as the number |
| Landing.FullText | src/pages/landing/LandingPage.js:17-21 | The greeting is the two messages joined by a line break and ends with the decimal user number |
| Landing.FullTextLength | src/pages/landing/LandingPage.js:10-21 | Every drawable user number has eight digits, so the greeting has 82 characters |
| Landing.IndexAfterBound | src/pages/landing/LandingPage.js:23-29 | As written, after n ticks the index is min(n, length - 1) |
| Landing.TypedLength | src/pages/landing/LandingPage.js:23-29 | Whenever the state updaters run, the typed text has one character per tick that advanced the index |
| Landing.NeverWholeText | src/pages/landing/LandingPage.js:23-29 | As written, whenever the state updaters run, the typed text is at most length - 1 characters long and never the whole text |
| Landing.TypedAtTick | src/pages/landing/LandingPage.js:23-29 | When every updater runs at its tick, the typed text is the prefix of the greeting up to the index |
| Landing.TypedAfterIncrement | src/pages/landing/LandingPage.js:23-29 | When every updater runs after the increment, the typed text is the greeting from its second character up to one past the index |
| Landing.LastDigitNeverTyped | src/pages/landing/LandingPage.js:23-29 | As written, with updaters run at the tick, no number of ticks shows the whole greeting; typing stops with the last digit of the user number missing |
| Landing.FirstCharacterSkippedAfterIncrement | src/pages/landing/LandingPage.js:23-29 | As written, with updaters run after the increment, no number of ticks shows the whole greeting; typing ends with the full user number but without the leading '>' |
| Landing.TypedIntendedPrefix | src/pages/landing/LandingPage.js:23-29 | With the length bound and the character read at the tick, the typed text is the prefix of the greeting up to the index |
| Landing.IntendedTypesWholeText | src/pages/landing/LandingPage.js:23-29 | With the length bound and the character read at the tick, the whole greeting is shown after as many ticks as it has characters |
| Landing.TypingEffect.Tick | src/pages/landing/LandingPage.js:23-30 | As written: while the index is below length - 1 a tick appends one character (at the index, or one past it when the updater runs after the increment) and advances the index, otherwise it stops the interval; the text never reaches the greeting's length |
| Landing.CorrectedTypingEffect.Tick | src/pages/landing/LandingPage.js:23-30 | The corrected tick: it appends while the index is below the length and stops with the whole greeting shown; the text is always the prefix of the greeting up to the index |

## Left out

- The force-directed layout and its random spherical seeding (src/pages/MapPage.js:31-104) are left out: they are floating-point N-body iteration driven by `Math.random`, with square roots.
- Per-frame jitter, raycasting, screen projection and `distanceTo` depend on three.js and trigonometry. The camera distance is an input to `MapAnimation.LabelOpacity`.
- The easing curves `easeInOutSine` and `easeOutExpo` are not modelled. They need `cos` and `pow`, so the eased progress is an input in [0, 1].
- The colour-transition frame callback (src/pages/MapPage.js:205-224) is left out. It reads a `progress` field that no transition entry ever has, so its test is always false and it never updates anything.
- The map's side panel of related edges, all JSX rendering, CSS and d3/canvas drawing are left out as presentation only.
- The OWL fetch and N3 parsing, the dagre layout and the node positions in the ontology view are left out. They are I/O and external libraries.
- The HomePage force simulation and image loading are left out. They are rendering.
- Timers (`setTimeout`, `setInterval`), effects and React batching are modelled as explicit method calls:
  - `DeliverReply` is the reply timer;
  - `DeselectTimerFires` is the deselection timer;
  - `Tick` is the typing interval.
- Landing.TypingEffect.Tick: when React runs each `setText` updater (at the tick, or at the next render after `currentIndex++`) is not modelled; each tick's choice is a parameter, and the lemmas cover both uniform choices and, for the length bound, every mix.
- Date parsing and formatting (`new Date`, `getTime`, `toISOString`, `toDateString`) are function parameters, not models of the JavaScript date algorithms.
- src/TaskDetails.js, src/App.js (routing) and src/audioTranscription.js are not part of this model.
- MapDrag.DragPan: pointer and camera coordinates are whole pixels (`int`), not floating point.
- MapAnimation.SelectionAnimation: the selected node is identified by its index in the map data. The source compares node objects by identity, which an index captures only when each node object sits at one index.
- MapAnimation.NodeStates.RenderFrame: blending uses exact reals, not IEEE doubles.
- HomeGraph.CreateLinks: takes exactly as many random draws as the builder makes, each in [0, 1), which `Math.random` guarantees.
- Retrospective.RetrospectiveChat.DeliverReply: pending replies are delivered in the order they were scheduled, which equal 1000 ms delays give.
- A background click on the 3-D map while nothing is selected still enters the deselecting phase. `LabelBaseOpacity` then fades idle labels through that branch. The model shows this but proves no property about it.

## Findings

| source | as written | input that shows it | evidently intended | confidence | as-written member | corrected member |
|---|---|---|---|---|---|---|
| src/pages/landing/LandingPage.js:24-25 | typing continues only while `currentIndex < fullText.length - 1`, so only length - 1 characters are ever appended; which characters appear depends on when React runs each updater `prev => prev + fullText[currentIndex]` | any user number, e.g. 12345678: if the updater runs at the tick, typing stops at "… User_1234567"; if it runs at render after `currentIndex++`, the leading '>' is skipped and the text ends "… User_12345678"; with a mix of timings characters can repeat or be skipped (ticks reading indices 0, 2, 2) | the whole greeting, ending in the full user number, is typed (bound `fullText.length`, with the character read at the tick, as in `const ch = fullText[currentIndex]`; the bound alone would append `undefined` when the updater runs after the increment) | high that the greeting is never complete, medium on which characters appear (not executed) | Landing.NeverWholeText | Landing.IntendedTypesWholeText |
