# Verified models of Canopy's matching, queueing and capture logic

Models in Dafny of the parts of Canopy whose correctness is not visible from any one function: a dynamic
program over reused buffers, asynchronous protocols whose callbacks interleave, queues that promise not to lose work,
and two parsers. Each module states the code twice - as the methods and classes the source has, and as the function or
step those are proved equal to - and then proves what the code is for about every input, every run or every interleaving.

`dafny verify dfyconfig.toml` checks everything. Each file is one module:

| file | models |
|---|---|
| `Basics.dfy` | the option type and the maximum every module uses |
| `FuzzyScore.dfy` | `shared/fuzzy.ts`: the one definition of what a placement scores, the scorer and the greedy pass |
| `FuzzyMatrix.dfy` | the matrix as a definition: soundness, what it can and cannot find |
| `FuzzyMatcher.dfy` | the matrix as loops over 16-bit buffers that outlive a call |
| `FuzzyQuery.dfy` | literal terms, the AND of a query's terms, the merged ranges |
| `BrowserFrames.dfy`, `Totals.dfy` | `src/browserHost.ts`, `src/browserFrameMetrics.ts`: who owns a captured frame and what the ledger says |
| `BrowserHistory.dfy` | the same protocol read off the events alone: what a held frame is a picture of, when captures begin and succeed |
| `OcclusionWalk.dfy` | `src/browserHost.ts`, `src/browserOcclusion.ts`, `src/browserBounds.ts`: the pruning walk |
| `EventLog.dfy` | `shared/notifications.ts`: the bounded log, trimmed at every batch |
| `PendingCards.dfy` | `shared/notifications.ts`: the cards derived from the log |
| `PendingOutcomes.dfy` | which cards are shown after each kind of event |
| `Attention.dfy` | `src/attention.ts`: the attention queue, its dwell timers and the bridge to the system |
| `AttentionOutcomes.dfy` | what each of its operations does to the items |
| `AgentTurns.dfy` | `src/agentTurns.ts`: turn starts, turn ends and session ends |
| `Watchdog.dfy` | `src/browserWatchdog.ts`: breaches and their episodes |
| `BackgroundSlots.dfy` | `src/brainCall.ts`: the queue for background calls |
| `BalancedBraces.dfy` | `src/brainCall.ts`: finding a JSON object in a reply |
| `ArchiveBudget.dfy` | `src/archiveBudget.ts`: the zip preflight |

## How to read it

- A protocol is a `State`, an `Event` and a `Step`; `Run` applies any sequence of events. A promise's callback, a timer
  and an abort are events of their own that may come at any later moment, so a statement about `Run` is about every
  interleaving. The classes' methods are proved to make exactly these steps.
- Predicates over a sequence recurse from its end. `Up`, `Spells` and `Embeds` say that offsets strictly increase, lie in
  a window and read the pattern; `UpMeans` and `SpellsMeans` restate them position by position.
- Fields described as bookkeeping (`places`, `heldBegan`, `clock` in `BrowserFrames`, `granted` and `aborted` in
  `BackgroundSlots`) are read by no step; they exist so that the statements can be made. `BrowserHistory` ties those of
  `BrowserFrames` to positions in the list of events.

## What came out false, and what holds instead

- The fuzzy matcher is not null exactly when the pattern is no subsequence. A gap can cost more than its prefix is worth,
  and the matrix then gives up (`shared/fuzzy.ts:262-287`). It is sound, complete up to gaps of 14
  (`FuzzyIsComplete`), and 14 cannot be raised (`FourteenIsSharp`). What it answers pays for every gap
  (`TraceIsAffordable`), but a placement that does may still go unfound (`AffordableIsNotEnough`).
- A session end is not announced once per resumed session. A prompt re-arms the session when it is heard, not when its
  turn comes in the chain (`src/agentTurns.ts:183`, `src/agentTurns.ts:216-217`); an end still queued uses that up
  (`ResumedEndCanBeLost`). Whether the resumed session's own end is announced is decided at that moment, by whether an
  end is waiting then, and only the first of several reports of it is (`OwnEndIsAnnouncedExactly`);
  `EndIsAnnouncedExactly` says it of every end.
- Attention items' ids are not unique (`IdsCanRepeat`). One repeats exactly when a timer's post lands on nothing while the
  id it inherited is listed by an item the cap leaves there: one of the first 299, or an outstanding one
  (`IdRepeatsExactly`, and `IdsStayDistinct` over runs). An FYI posted under an outstanding question's key ends the
  question (`ResolvedMeansNoneOutstanding`). Questions are therefore told apart by id, key and waiting time together.
- A session can show two calm cards (`TwoIdleCardsOutOfOrder`). It never does exactly when no turn's end finds a calm
  card newer than itself (`EverySessionStaysCalm`, `PendingStaysCalm`); asks, notices and progress cannot break it, and
  timestamps that do not run backwards are enough (`InOrderIsEnough`).
- A cap of 0 makes the event log keep everything (`ZeroCapKeepsAll`).
- `extractJsonObject` says it tolerates prose before the object, but a brace in that prose can hide it. It is found
  exactly when every brace before it closes somewhere and yields no object of its own (`FoundExactlyWhenReached`, stated
  of the whole extraction by `ExtractJsonObject`); with one stray brace that is decided by what follows the object
  (`StrayBraceHides`).

## Model

| member | source | states |
|---|---|---|
| FuzzyScore.ScanDecides | shared/fuzzy.ts:165-173 | the forward scan finds the whole pattern exactly when the pattern is a subsequence of the searched text |
| FuzzyScore.GreedyRegionIsTight | shared/fuzzy.ts:149-182 | the greedy pass finds nothing exactly when nothing embeds; otherwise its region ends at the least end of any embedding, starts at the greatest start among embeddings with that end, and a forward scan of it takes the whole pattern from its first character to its last |
| FuzzyScore.GreedyIsTight | shared/fuzzy.ts:149-182 | where the greedy pass lands: nowhere exactly when nothing embeds, else on an embedding with the least end, the greatest start for that end, and every offset as early as it can be from there on |
| FuzzyScore.ScoreRegion | shared/fuzzy.ts:109-147 | the scoring loop returns the score of the offsets it takes under one closed definition (doubled first bonus, gap start and extension, run bonus with restart), and appends exactly those offsets |
| FuzzyScore.GreedyTerm | shared/fuzzy.ts:153-182 | null exactly when no embedding exists; otherwise the score and the offsets handed back are those of one placement that spells the pattern |
| FuzzyScore.EarliestEnd | shared/fuzzy.ts:162-173 | the forward loop stops one past the offset that completes the pattern, or reports that the pattern is not completed |
| FuzzyScore.LatestStart | shared/fuzzy.ts:174-180 | the backward loop stops on the offset from which the region reads the whole pattern right to left |
| FuzzyScore.BonusMeans | shared/fuzzy.ts:93-103 | which pairs of neighbouring characters earn 10, 9, 8, 7 and nothing |
| FuzzyScore.GapIsCharged | shared/fuzzy.ts:109-147 | a gap costs three for its first character and one for each further one, and starts the run over |
| FuzzyScore.RunIsRewarded | shared/fuzzy.ts:125-135 | a character that follows at once earns the best of its own bonus, its run's first and four; a stronger word start becomes the run's first |
| FuzzyScore.ContiguousIsBest | shared/fuzzy.ts:109-147 | where position earns nothing, exactly the contiguous placements score the most of all of their length |
| FuzzyScore.PlacementAtMostIdeal | shared/fuzzy.ts:62-67 | no placement scores more than the ideal of its length |
| FuzzyScore.IdealIsAttained | shared/fuzzy.ts:62-67 | at every length some text and placement score exactly the ideal, so it is the least such bound |
| FuzzyScore.UpMeans | shared/fuzzy.ts:104-108 | offsets of a placement are strictly increasing and inside the window |
| FuzzyScore.SpellsMeans | shared/fuzzy.ts:104-108 | the k-th offset of a placement holds the k-th pattern character |
| FuzzyMatrix.At | shared/fuzzy.ts:256-295 | every cell is between 0 and 36 + 26 times its row, a run never reaches back past the window, and a matched cell scores at least 16 and stands on an equal character; which of its two choices a cell keeps is KeepsTheBetter |
| FuzzyMatrix.MatrixIsSound | shared/fuzzy.ts:254-307 | every reachable cell traces back to strictly increasing offsets in the window that spell the row's prefix, and holds exactly the score of that placement less the gap since |
| FuzzyMatrix.TakeScores | shared/fuzzy.ts:267-281 | extending a cell by one match adds what the scorer's rules add and restarts a run exactly when they do |
| FuzzyMatrix.KeepsTheBetter | shared/fuzzy.ts:283-287 | every cell keeps the better of its two choices - the kept placement with this offset added, scored as a whole, or the left cell's placement less the gap since - the match when they tie, and is reachable when either is |
| FuzzyMatrix.LosesAtMostThree | shared/fuzzy.ts:260-287 | along a row a cell worth s is followed, t columns on, by one worth at least s - 3t wherever that is not negative |
| FuzzyMatrix.NoneIsMissed | shared/fuzzy.ts:254-288 | for every placement of a prefix that stays solvent without run bonuses, at three a skipped character, the cell it ends in is reachable and worth at least that |
| FuzzyMatrix.FuzzyIsNoWorse | shared/fuzzy.ts:211-309 | inside the budget the answer scores at least what any solvent embedding of the whole pattern is worth in that way |
| FuzzyMatrix.SingleIsBest | shared/fuzzy.ts:211-309 | for a one-character pattern the answer is the best placement there is |
| FuzzyMatrix.LaterStartExactly | shared/fuzzy.ts:262-293 | for `ab` against an `a`, any gap, an `a` and a `b`: the answer starts at the later `a` exactly when matching there is worth no less than carrying the first one over the gap, for every gap and every pair of bonuses |
| FuzzyMatrix.TraceIsAffordable | shared/fuzzy.ts:261-288 | a traced placement never goes into debt: each prefix of it is worth at least the gap that follows |
| FuzzyMatrix.CloseEmbeddingReaches | shared/fuzzy.ts:260-288 | along an embedding whose gaps are at most 14 every cell stays reachable with a score of at least 16 |
| FuzzyMatrix.BestIsMaximal | shared/fuzzy.ts:290-293 | the column answered holds the greatest score among the last row's matches, the leftmost of equals |
| FuzzyMatrix.WindowDecides | shared/fuzzy.ts:217-228 | the early rejections and the window: none exactly when the pattern does not embed in the text at all, and otherwise it embeds in the window |
| FuzzyMatrix.FuzzyIsSound | shared/fuzzy.ts:211-309 | a non-null answer comes with a placement that spells the pattern in order; inside the budget every prefix of it pays for the gap that follows |
| FuzzyMatrix.DecaysExactly | shared/fuzzy.ts:262-287 | past a match whose character does not come again, a row stays reachable exactly as long as the match pays for the gap, and holds its score less the gap |
| FuzzyMatrix.AffordableIsNotEnough | shared/fuzzy.ts:262-287 | a text and bonuses on which a placement that pays for every gap exists and the answer is null: a tie goes to the match, which restarts the gap |
| FuzzyMatrix.FuzzyIsComplete | shared/fuzzy.ts:211-309 | a pattern that embeds with gaps of at most 14 is never answered null; past the matrix budget any embedding is enough |
| FuzzyMatrix.FourteenIsSharp | shared/fuzzy.ts:262-287 | for `ab` against an `a` without bonus, n other characters and a `b`: an embedding exists, and the answer is non-null exactly when n is at most 14 |
| FuzzyMatcher.CellFits | shared/fuzzy.ts:229-252 | within 512 pattern characters every score is at most 13322 and every run at most 512, so both fit 16 bits |
| FuzzyMatcher.FillMatrix | shared/fuzzy.ts:254-295 | the two loops over the flat 16-bit buffers leave the matrix of the definition in them and return its leftmost best match, whatever the buffers held before; every store fits its cell |
| FuzzyMatcher.TraceBack | shared/fuzzy.ts:298-307 | following the trace plane gives the placement the matrix definition traces |
| FuzzyMatcher.MatrixAnswer | shared/fuzzy.ts:254-308 | the score answered is the score of the offsets handed back |
| FuzzyMatcher.IsSubsequence | shared/fuzzy.ts:225-228 | the one-pass test says whether the pattern fits the window |
| FuzzyMatcher.FindWindow | shared/fuzzy.ts:212-228 | every rejection before the matrix, or the window |
| FuzzyMatcher.Matcher.LoadBonuses | shared/fuzzy.ts:233-240 | the bonus buffer holds the bonus of every window column, grown only when too short |
| FuzzyMatcher.Matcher.Grow | shared/fuzzy.ts:242-247 | after growing, the planes hold a whole matrix |
| FuzzyMatcher.Matcher.FuzzyTerm | shared/fuzzy.ts:211-309 | the answer is one placement's score and offsets, the same for any earlier use of the buffers and whether or not offsets are wanted; the empty pattern costs 0 |
| FuzzyQuery.BestStartIsMaximal | shared/fuzzy.ts:334-346 | a literal term matches when an allowed occurrence exists, and takes the best placed one, the first of equals |
| FuzzyQuery.CoveringIsEnough | shared/fuzzy.ts:326-343 | trying the listed starts is as good as trying every position |
| FuzzyQuery.Starts | shared/fuzzy.ts:326-332 | the starts listed for an anchor are ascending and miss no allowed occurrence |
| FuzzyQuery.ExactTerm | shared/fuzzy.ts:315-347 | the loop over the starts answers the best allowed occurrence's score and offsets, or null when there is none |
| FuzzyQuery.LiteralMeans | shared/fuzzy.ts:311-347 | a literal term matches exactly the texts that contain it, begin with it, end with it or are it, as its anchor says, on one unbroken occurrence |
| FuzzyQuery.MeetsMeans | shared/fuzzy.ts:430-441 | an anchored term is met as its anchor says; a negated one without an anchor is met exactly when the text does not contain it |
| FuzzyQuery.TermIsSound | shared/fuzzy.ts:430-441 | whatever a term of either kind matched spells its text in order |
| FuzzyQuery.FoldIsAnd | shared/fuzzy.ts:446-452 | a query matches exactly when every plain term matches and no negated one occurs |
| FuzzyQuery.ClampNeverActs | shared/fuzzy.ts:424-444 | the cost is a sum over the terms of shortfalls none of which is negative, so clamping it at 0 never changes it |
| FuzzyQuery.CollectedOffsets | shared/fuzzy.ts:424-444 | the offsets collected are exactly those the placements of the terms use |
| FuzzyQuery.Run | shared/fuzzy.ts:424-444 | the loop over the terms: cost and offsets of the query, the cost being the same whether or not offsets are wanted |
| FuzzyQuery.SortSorts | shared/fuzzy.ts:479 | the sort gives an ascending list of the same offsets |
| FuzzyQuery.MergeCovers | shared/fuzzy.ts:480-486 | merging an ascending list gives non-empty ranges at least one character apart that cover exactly its offsets |
| FuzzyQuery.MergeOffsets | shared/fuzzy.ts:480-486 | the merging loop computes that merge |
| FuzzyQuery.FuzzyRanges | shared/fuzzy.ts:476-487 | null exactly when the query has no cost, else the merged ranges of its offsets |
| FuzzyQuery.RangesAreTheMatch | shared/fuzzy.ts:472-487 | the ranges are separated and their union is the set of offsets some term matched, even when terms overlap |
| BrowserFrames.StepKeeps | src/browserHost.ts:333-525 | every step - registration, layout, either callback of a capture, navigation, forgetting, hiding - keeps the view, capture, ownership and ledger invariants |
| BrowserFrames.RunKeeps | src/browserHost.ts:333-525 | so every interleaving of them does, from an empty host |
| BrowserFrames.Ownership | src/browserHost.ts:440-525 | after any run each source ever created is in exactly one place: held by one registered view, waiting in one decode, or released once |
| BrowserFrames.LedgerAgrees | src/browserFrameMetrics.ts:34-64 | after any run the ledger's count and bytes are the number and the sum over the registered views, and cover every frame a release could take off, so neither clamp changes a figure |
| BrowserFrames.NoStaleFrame | src/browserHost.ts:419-430 | a held frame's capture began after the page last started loading, a view that is not dirty holds a picture of its current sequence number, and a view has at most one capture in flight, just when it is marked as capturing |
| BrowserHistory.FollowsEvents | src/browserHost.ts:602-622 | read off the events alone: a tab is registered, wanted and on show as its last such event says, and its page last started loading at the last loading navigation since it was registered |
| BrowserHistory.FrameIsOfThisPage | src/browserHost.ts:440-622 | a held frame's capture was begun by a layout pass over that very registration of the tab, under the sequence number of that moment, later than the last loading navigation among the events |
| BrowserHistory.CleanMeansUnchanged | src/browserHost.ts:440-500 | a view that is not dirty holds a frame, and its page has neither navigated nor changed since the event that began that frame's capture |
| BrowserHistory.LeavingGivesBack | src/browserHost.ts:612-619 | after a loading navigation, a new registration or a forget no view of the tab holds a frame, the source held is released once, and the ledger has lost one frame and exactly its bytes |
| BrowserHistory.NavigatingOutdates | src/browserHost.ts:602-622 | any other navigation keeps the frame, its bytes and the ledger and marks the view dirty; after either kind every capture in flight for the view is of an older sequence number |
| BrowserHistory.CaptureBeginsExactly | src/browserHost.ts:363-430 | a layout pass begins a capture exactly when the view has none in flight and goes off screen while wanted, or is on screen, dirty and not tried within the last second |
| BrowserHistory.CaptureSucceeds | src/browserHost.ts:440-502 | a capture begun is adopted, whatever happens to other tabs and captures between its callbacks, provided this tab's page, registration and frame are left alone: the view is clean and holds the picture that arrived |
| BrowserHistory.CaptureFails | src/browserHost.ts:446-523 | a capture that fails, comes back empty or finds the page moved on changes no frame, no byte and no source, and frees the view for the next |
| BrowserFrames.GivesUpExactly | src/browserHost.ts:775-797 | what hiding one view gives up is exactly what the ledger loses |
| BrowserFrames.BooksUpdate | src/browserFrameMetrics.ts:34-64 | replacing one view's entry changes the two totals by exactly that view's difference |
| BrowserFrames.BrowserHost.RegisterBrowserView | src/browserHost.ts:737-761 | the registration step: a replaced view's frame is let go of first |
| BrowserFrames.BrowserHost.ForgetBrowserView | src/browserHost.ts:763-769 | the forget step |
| BrowserFrames.BrowserHost.Apply | src/browserHost.ts:361-430 | the capture decisions of a layout pass for one view: one more as it goes off screen, and one whenever a shown view is dirty and none is in flight |
| BrowserFrames.BrowserHost.FrameArrived | src/browserHost.ts:445-484 | the first callback: given up on when the view is gone, the page moved on or nothing came, else handed to the decoder |
| BrowserFrames.BrowserHost.FrameFailed | src/browserHost.ts:503-523 | a failed capture ends and keeps the frame in hand |
| BrowserFrames.BrowserHost.FrameDecoded | src/browserHost.ts:486-503 | the second callback: adopted by the view it was taken of, or released on the spot |
| BrowserFrames.BrowserHost.BrowserViewChanged | src/browserHost.ts:602-622 | a navigation moves the sequence on, and one that starts loading drops the frame |
| BrowserFrames.BrowserHost.BrowserPageChanged | src/browserHost.ts:833-839 | an agent's action moves the sequence on and marks the view dirty |
| BrowserFrames.BrowserHost.PushVisible | src/browserHost.ts:361-388 | a change of visibility is kept, and a view going off screen is photographed once more |
| BrowserFrames.HiddenDrops | src/browserHost.ts:779-795 | a pass over some tabs leaves views on show, and hidden ones that hold nothing, as they were, and every other view it meets without a frame |
| BrowserFrames.BrowserHost.ReleaseHiddenBrowserFrames | src/browserHost.ts:775-797 | the loop over all views leaves every hidden one without a frame and every one on show as it was, and returns exactly the frames and bytes the ledger lost |
| Totals.TotalUpdate | src/browserFrameMetrics.ts:34-64 | a sum over a map after one entry is replaced |
| OcclusionWalk.Visit | src/browserHost.ts:272-311 | the recursive walk pushes exactly what the pruning definition lists, in order |
| OcclusionWalk.OverlapsMeansShared | src/browserBounds.ts:69-76 | two positive rectangles overlap exactly when their insides share a point |
| OcclusionWalk.CountedMeans | src/browserOcclusion.ts:67-98 | what covers the view: a positive rectangle sharing a point with it, of an element lifted out of the flow that takes clicks or is known to paint without taking them |
| OcclusionWalk.ContainsMeans | src/browserHost.ts:272-311 | an element contains the host exactly when a line of descent leads from it to the host |
| OcclusionWalk.OccludersOver | src/browserHost.ts:266-315 | the whole walk from the body |
| OcclusionWalk.WalkFindsTopmost | src/browserHost.ts:266-315 | the walk returns exactly the topmost occluders: the ends of rendered paths outside the host's chain whose end covers the view and nothing above it does |
| OcclusionWalk.WalkAnswersTheGlobalQuestion | src/browserHost.ts:266-315 | it comes back empty exactly when no element outside the host's subtree and ancestor chain, rendered all the way down from the body, has a positive rectangle that occludes the view |
| EventLog.KeepAgain | shared/notifications.ts:122-135 | whatever a stricter pass would keep of the log, it keeps of the trimmed log |
| EventLog.TrimStep | src/App.tsx:1206-1211 | trimming a trimmed log with a batch appended is trimming the whole history with that batch appended |
| EventLog.IncrementalIsWhole | src/App.tsx:1206-1211 | after any batches the incrementally trimmed log is one trim of the whole history |
| EventLog.LogMatchesHistory | shared/notifications.ts:108-135 | each terminal's newest session-bearing entry and the last cap entries are those of the untrimmed history, and the log holds at most cap entries and one per terminal |
| EventLog.LastNamedStays | shared/notifications.ts:122-135 | under any cap and after any batches, the last entry of the whole history to name a terminal and a session in it is in the log |
| EventLog.KeepIsBounded | shared/notifications.ts:122-135 | what is kept is at most the cap and one entry per terminal |
| EventLog.NewestPosition | shared/notifications.ts:127-131 | a position is a terminal's newest exactly when no later entry carries its stamp |
| EventLog.ZeroCapKeepsAll | shared/notifications.ts:133 | a cap of 0 trims nothing: slicing from minus zero takes everything |
| EventLog.CollectKeep | shared/notifications.ts:127-133 | the positions kept are each terminal's newest and the last ones |
| EventLog.TrimAgentEvents | shared/notifications.ts:122-135 | the two collecting loops and the filter compute the trim |
| PendingCards.CalmExactly | shared/notifications.ts:265-392 | an event leaves at most one calm card and at most one urgent card, a question or a notification but never both, exactly when it is no turn's end that finds a calm card newer than itself |
| PendingCards.EndsAreExact | shared/notifications.ts:357-391 | a turn's end leaves exactly its one calm card, and any other step forward leaves none, exactly when no card is newer than the event |
| PendingCards.EverySessionStaysCalm | shared/notifications.ts:265-395 | a session has at most one calm and one urgent card after every prefix of a stream exactly when no turn's end in it finds a newer calm card |
| PendingCards.InOrderIsEnough | shared/notifications.ts:265-395 | timestamps that do not run backwards for the session are enough |
| PendingCards.LastEventDecides | shared/notifications.ts:357-391 | with such timestamps, right after a Stop a session shows exactly one calm card, and right after any other step forward none |
| PendingCards.TwoIdleCardsOutOfOrder | shared/notifications.ts:363-365 | timestamps that run backwards do leave two calm cards |
| PendingCards.PendingIsPerSession | shared/notifications.ts:265-395 | filtering the result by session equals deriving from that session's events alone |
| PendingCards.PendingStaysCalm | shared/notifications.ts:265-395 | the same, exactly, of the session's share of the sorted result |
| PendingCards.NewestFirstDescends | shared/notifications.ts:394 | the result is in descending order of time |
| PendingCards.MineNewestFirst | shared/notifications.ts:394 | sorting is stable: it commutes with choosing one session's cards |
| PendingCards.Apply | shared/notifications.ts:268-392 | one event's branches update the map as the fold says; what each leaves shown is in PendingOutcomes |
| PendingCards.DerivePending | shared/notifications.ts:265-395 | the loop over the events computes the fold |
| PendingOutcomes.AskIsShown | shared/notifications.ts:278-297 | after an ask the session shows exactly one urgent card, the question of that event with its time and agent, and the calm cards there were |
| PendingOutcomes.BlockedIsShown | shared/notifications.ts:298-356 | after a notice that is evidence and not finished: nothing changed when a question was shown, else exactly one notification, of that event with its time and words, and the other cards as they were |
| PendingOutcomes.OverIsShown | shared/notifications.ts:319-336 | after a notice that the turn is over: exactly one calm card, of that event, and every urgent card there was |
| PendingOutcomes.EndIsShown | shared/notifications.ts:357-380 | after a turn's end: its own calm card with the agent's last words, at most 140 characters, and exactly the cards newer than it |
| PendingOutcomes.ProgressClears | shared/notifications.ts:381-391 | after any other event of the session: exactly the cards newer than it |
| PendingOutcomes.OthersChangeNothing | shared/notifications.ts:265-316 | a notice without meaning, and an event of another session or of none, changes nothing |
| Attention.TrimLosesNoQuestion | src/attention.ts:347-355 | the cap loses no outstanding question |
| Attention.TrimIsCapped | src/attention.ts:350-355 | every item past the 300th is outstanding |
| Attention.CommitCounts | src/attention.ts:427-513 | committing leaves at most one outstanding question under each key and exactly one under a question's own; only an FYI under its own key takes an outstanding question's place |
| Attention.QuestionIsListed | src/attention.ts:427-513 | the id a committed question's asker is handed is that of an outstanding question under its key |
| Attention.RunKeeps | src/attention.ts:427-641 | over every run of posts, timers, resolves, dismissals, reads and clears: at most one outstanding question per key, and every item past index 300 outstanding |
| Attention.QuestionsWait | src/attention.ts:427-641 | a question never resolved, and under whose key no FYI is committed, is there after any run with its id and the time it has been waiting since |
| Attention.ResolvedMeansNoneOutstanding | src/attention.ts:591-609 | nothing is outstanding under a key that was just resolved, or under which an FYI just landed |
| AttentionOutcomes.TrimKeeps | src/attention.ts:350-355 | the cap leaves the first 300 items as they are and of the others exactly the outstanding questions |
| AttentionOutcomes.ResolveDoes | src/attention.ts:574-586 | resolving by id: the first item with it gets the moment and the resolution, every other field and item stays, one already resolved is left alone, and exactly the staged posts with the id are dropped |
| AttentionOutcomes.ResolveEnds | src/attention.ts:574-586 | so of the outstanding questions with that id, key and waiting time there is one less, and none where the id stands once |
| AttentionOutcomes.ResolveByKeyDoes | src/attention.ts:591-609 | resolving by key: every question outstanding under it gets the moment and the resolution, its staged post is dropped, and nothing else changes |
| AttentionOutcomes.DismissDoes | src/attention.ts:612-619 | waving a toast away marks the first item with the id, once, and changes nothing else |
| AttentionOutcomes.MarkAllReadDoes | src/attention.ts:624-629 | opening the list gives every unread item the moment and changes nothing else |
| AttentionOutcomes.ClearDoes | src/attention.ts:636-641 | clearing leaves exactly the outstanding questions, each as often as before |
| AttentionOutcomes.FitsMeans | src/attention.ts:438-494 | what the look-ups look for: an outstanding question under a key, the very question an asker holds, an FYI under a key, and a question of the same key and text withdrawn no longer ago than the window |
| AttentionOutcomes.AskedAgain | src/attention.ts:438-456 | a question asked again while outstanding keeps its id, place and times and says what was said last, field by field; when it says nothing new, nothing is written |
| AttentionOutcomes.AnnouncedAgain | src/attention.ts:457-480 | an FYI repeated is the same item at the top, with its new time and words, unread and with its toast back |
| AttentionOutcomes.AskedSoonAgain | src/attention.ts:481-509 | a withdrawn question of the same text, asked again inside its window, is reopened under its old id at the top, outstanding and unread |
| AttentionOutcomes.PostedNew | src/attention.ts:510-513 | a post that lands on nothing is a new item at the top, every other item staying where it was |
| AttentionOutcomes.PostsNowOrLater | src/attention.ts:515-568 | a post with a dwell and a non-empty key is staged and shown nowhere; any other is committed at once and stages nothing |
| AttentionOutcomes.StagedIs | src/attention.ts:532-568 | a staged post said again keeps its timer and the time it first arrived; said differently it starts over; no item and no other key is touched |
| AttentionOutcomes.StagedUnder | src/attention.ts:541-554 | its id is that of the post it replaces, else of the withdrawn question it would reopen, else a new one |
| AttentionOutcomes.DwellEndsInAPost | src/attention.ts:562-566 | a staged post that nobody replaces, cancels or fires is committed when its timer fires, after any run, with what it said and under the id its poster was given |
| Attention.CancelledNeverShows | src/attention.ts:515-589 | a staged post cancelled by key or by id before its timer fires is never seen: its timer changes nothing in whatever follows |
| Attention.StagingIsInvisible | src/attention.ts:537-568 | staging changes no item |
| Attention.RunKeepsTokens | src/attention.ts:562-565 | a timer can only find the very post it was set for |
| Attention.AnnouncedExactly | src/attention.ts:267-282 | one look announces an id exactly when it was not considered before and its first item may reach the system |
| Attention.AnnouncedAtMostOnce | src/attention.ts:267-282 | over any sequence of looks an id is announced at most once, and never if it was stored at the start |
| Attention.CommitIds | src/attention.ts:427-513 | a commit lists no id but those listed, the one it was given, or one new one |
| Attention.RepostSendsNothing | src/attention.ts:485-513 | a post that lands on a considered item, or carries a considered id, sends nothing - also when its text changed and it is listed as an item of its own |
| Attention.IdsAfterCommit | src/attention.ts:427-513 | how often an id is listed grows only when a post that lands on nothing is filed under it; exactly so while the cap drops nothing |
| Attention.StepKeepsFreshIds | src/attention.ts:387-390 | no step lists or stages an id that is yet to be handed out |
| Attention.IdRepeatsExactly | src/attention.ts:510-566 | one step makes an id that stands at most once stand twice exactly when a timer's post lands on nothing while the id it carries is listed by an item the cap leaves there (one of the first 299, or an outstanding one), however long the list |
| Attention.IdsStayDistinct | src/attention.ts:427-641 | over every run ids are handed out once, and an id that stands at most once does so after every prefix exactly when no event of the run is such a timer |
| Attention.IdsCanRepeat | src/attention.ts:554 | ids do repeat: a withdrawn question asked again with a dwell lends its id, and a changed text is then listed under it a second time |
| Attention.FindIndex | src/attention.ts:438-440 | the position of the first item that fits |
| Attention.AttentionStore.CommitAttention | src/attention.ts:427-513 | the list, the id and the id supply after a commit |
| Attention.AttentionStore.PostAttention | src/attention.ts:515-568 | a post commits at once or is staged; the id returned is the item's or the candidate's |
| Attention.AttentionStore.Fire | src/attention.ts:562-566 | a timer commits the post it was set for, or does nothing |
| Attention.AttentionStore.ResolveAttention | src/attention.ts:574-586 | the resolve step, of which ResolveDoes says what it does: drops the staged posts with the id and resolves the first item that has it, first writer wins |
| Attention.AttentionStore.ResolveAttentionByKey | src/attention.ts:591-609 | drops the staged post of the key and resolves every outstanding question under it |
| Attention.AttentionStore.WaveAway | src/attention.ts:612-619 | dismissing a toast answers nothing |
| Attention.AttentionStore.OpenList | src/attention.ts:624-629 | marks what is unread as read |
| Attention.AttentionStore.ClearHistory | src/attention.ts:636-641 | keeps exactly the outstanding questions |
| Attention.OsBridge.Consider | src/attention.ts:267-282 | the loop over the items sends and remembers what the definition says |
| AgentTurns.NothingLost | src/agentTurns.ts:177-203 | what a session announced, followed by what is still queued, is what was observed of it |
| AgentTurns.TurnsComeInOrder | src/agentTurns.ts:177-203 | its announced starts and ends are a prefix of its observed prompts and Stops |
| AgentTurns.PlayIsSound | src/agentTurns.ts:258-299 | each end names the start announced immediately before it, or is partial and its window runs from the end before |
| AgentTurns.StartIsClosedOnce | src/agentTurns.ts:274-299 | an end is not partial exactly when a start immediately precedes it, and then it names that start: no start is closed twice or before it began |
| AgentTurns.WindowsNeverOverlap | src/agentTurns.ts:277-296 | with observation times that do not run backwards every window ends at its Stop and begins no earlier than the end before it |
| AgentTurns.SessionEndsAreFew | src/agentTurns.ts:220-228 | session ends announced number at most the prompts observed and one |
| AgentTurns.PromptRearms | src/agentTurns.ts:216-217 | the first session end to begin after a prompt was heard is announced |
| AgentTurns.EndIsAnnouncedExactly | src/agentTurns.ts:220-228 | when its turn comes, a session end is announced exactly if the session was heard of and no end has begun since it last heard a prompt |
| AgentTurns.OwnEndIsAnnouncedExactly | src/agentTurns.ts:183-228 | whether a resumed session's own end is announced is settled when its prompt is heard: exactly if no session end was waiting its turn then and it is the first reported after the prompt, however many ends are reported |
| AgentTurns.EndsAreConserved | src/agentTurns.ts:220-228 | session ends waiting and session ends whose turn came add up to those waiting before and those observed since |
| AgentTurns.ResumedEndCanBeLost | src/agentTurns.ts:183-217 | a run where the end of the resumed session is never announced |
| AgentTurns.StepIsLocal | src/agentTurns.ts:126-137 | an event moves the session it concerns as that session's automaton would, and no other |
| AgentTurns.SessionsAreIndependent | src/agentTurns.ts:126-203 | however the lookups of sessions interleave, each session's view is its own automaton's run over its own inputs |
| AgentTurns.EveryInterleaving | src/agentTurns.ts:177-299 | all of the above for every interleaving of every session's lookups |
| AgentTurns.AnnouncedAreHooks | src/agentTurns.ts:177-240 | for every interleaving, what a session announces is a prefix of its own hooks' prompts and Stops, in their order and with their times, each under a number of its own, and it announces no more ends than its hooks and its terminals' exits reported |
| AgentTurns.ExitEndsItsSession | src/agentTurns.ts:215-240 | a terminal's exit queues one end for exactly the session the hooks say it was running: the one its last hook named, until it exits |
| AgentTurns.AgentTurnHub.ObserveAgentTurns | src/agentTurns.ts:177-203 | the loop over a batch is one observation step per event |
| AgentTurns.AgentTurnHub.ObserveOne | src/agentTurns.ts:182-203 | remembering at once, queueing the rest |
| AgentTurns.AgentTurnHub.ObserveAgentPtyExit | src/agentTurns.ts:230-240 | a terminal's exit queues a session end for the session it was running |
| AgentTurns.AgentTurnHub.RunToAwait | src/agentTurns.ts:220-299 | a task up to its first lookup |
| AgentTurns.AgentTurnHub.RunToEnd | src/agentTurns.ts:220-299 | a task after its lookups: it announces, and the chain moves on |
| Watchdog.ConditionsFor | src/browserWatchdog.ts:127-189 | the keys listed are exactly those the reading breaches, one rule per invariant |
| Watchdog.HealthyExactly | src/browserWatchdog.ts:127-196 | a reading breaches nothing exactly when every call was answered in time and the page is uncovered, in place and photographed in time, or hidden with a picture in its stead or still loading |
| Watchdog.BreachNames | src/browserWatchdog.ts:127-196 | what is breached is of the reading's tab and names the surface in the way or a call unanswered too long |
| Watchdog.ReportsAlternate | src/browserWatchdog.ts:215-274 | over every run reports about a key strictly alternate opened and closed, each close being of the breach opened, and the key is in breach exactly while its last report is an opening |
| Watchdog.OpenIsOpenedMinusClosed | src/browserWatchdog.ts:270-272 | what is listed as in breach is opened minus closed |
| Watchdog.EpisodeIsStreak | src/browserWatchdog.ts:232-256 | a key's episode is its tab's current unbroken streak of breaching readings: it starts with the streak's first reading and fires exactly once a reading finds the dwell has passed |
| Watchdog.QuietExactly | src/browserWatchdog.ts:258-268 | a key has no episode exactly when the last input about its tab was not a breach of it |
| Watchdog.OpenedMeansStreak | src/browserWatchdog.ts:243-254 | a reported opening's since is the first of an unbroken streak of that tab's readings all breaching the key, at least the dwell before the report |
| Watchdog.OpensExactly | src/browserWatchdog.ts:127-254 | a breaching reading opens a key exactly when it is not open and the time its kind of breach must last - for an overlay, a missing picture, a misplaced view - has passed since the first reading of the streak; the other two kinds open at once |
| Watchdog.ClosesExactly | src/browserWatchdog.ts:218-269 | an open key is closed by the tab's next input that is no breach of it, at that moment, and by nothing else |
| Watchdog.Watcher.Observe | src/browserWatchdog.ts:232-262 | after a reading every key's episode is what its automaton says, and the lists returned are exactly the openings and closings, one per key |
| Watchdog.Watcher.BreachAll | src/browserWatchdog.ts:237-256 | the loop over the conditions |
| Watchdog.Watcher.Close | src/browserWatchdog.ts:218-227 | ending some keys reports exactly those that were firing |
| Watchdog.Watcher.Forget | src/browserWatchdog.ts:264-269 | forgetting a tab ends its episodes |
| Watchdog.Watcher.Open | src/browserWatchdog.ts:271-273 | lists exactly what is firing |
| BackgroundSlots.RunKeeps | src/brainCall.ts:158-188 | over every run the count is the number of holders and at most 2, callers wait only while both slots are held, waiters stand in order of arrival, and everyone granted a slot arrived before everyone still waiting |
| BackgroundSlots.ReleasePassesOn | src/brainCall.ts:182-188 | a release passes its slot to the oldest caller still waiting, or frees exactly one: the clamp at 0 never acts |
| BackgroundSlots.AbortedNeverGranted | src/brainCall.ts:172-176 | a caller aborted while waiting is never given a slot |
| BackgroundSlots.NoOvertaking | src/brainCall.ts:183-184 | of two callers, the one that arrived earlier and was not aborted has its slot by the time the later one has |
| BackgroundSlots.WaiterMovesForward | src/brainCall.ts:182-188 | a waiter only moves forward, by one with every release, into a slot when it is first |
| BackgroundSlots.BackgroundQueue.AcquireBackground | src/brainCall.ts:162-180 | the acquire step: a slot at once, or the end of the queue |
| BackgroundSlots.BackgroundQueue.OnAbort | src/brainCall.ts:172-176 | the abort step: a caller that still waits leaves the queue, the others keep their order |
| BackgroundSlots.BackgroundQueue.ReleaseBackground | src/brainCall.ts:182-188 | the release step: the slot is handed to the head of the queue or freed |
| BalancedBraces.BalancedEnd | src/brainCall.ts:228-243 | the loop returns the position where the brace automaton first finishes, or -1 when it never does |
| BalancedBraces.ValueIsNeutral | src/brainCall.ts:209-243 | the text of any JSON value by the grammar of RFC 8259, with any white space and any escapes of its section 7, leaves the counter where it was |
| BalancedBraces.StopsOnItsLastBrace | src/brainCall.ts:228-243 | after any text and before any text, the counter started on a printed object's first brace stops on its last character |
| BalancedBraces.ObjectIn | src/brainCall.ts:214-224 | the object returned is the first brace's whose balanced slice parses to one, every brace before it having been passed; the search comes back empty exactly when it meets a brace that is never closed, or the end of the text, before any such |
| BalancedBraces.ExtractJsonObject | src/brainCall.ts:211-226 | the answer is an object from the first of the fenced blocks, in their order, and then the whole reply, that is not barren, and there is none exactly when all are; and of an object printed anywhere in that source, that the search stops on it exactly when every brace before it is passed, and then returns it |
| BalancedBraces.FoundExactlyWhenReached | src/brainCall.ts:214-224 | an object printed anywhere in a text is the one the search stops on exactly when every brace before it closes and the parser takes no slice of it for an object |
| BalancedBraces.NoBraceBeforeIsEnough | src/brainCall.ts:216 | after text without a brace an object is always reached |
| BalancedBraces.StrayBraceClosesBehind | src/brainCall.ts:228-243 | a brace left open in prose before the object closes exactly when the text behind the object closes it |
| BalancedBraces.StrayBraceHides | src/brainCall.ts:214-224 | with one stray brace anywhere in the prose before it, the object is reached exactly when the text behind it closes that brace and the parser refuses the slice; when nothing closes it the search gives up there |
| ArchiveBudget.FineMeansWithinBudget | src/archiveBudget.ts:21-90 | for every archive laid out by sections 4.3.12 and 4.3.16 of APPNOTE.TXT on one disk, without ZIP64 sentinels and with no later signature where the search looks: null exactly when the entry count, each expanded size and their sum fit the budget |
| ArchiveBudget.WalkDecides | src/archiveBudget.ts:66-88 | the walk over a printed directory passes exactly when its sizes fit |
| ArchiveBudget.WalkIsJudged | src/archiveBudget.ts:66-88 | over any bytes: null exactly when every header walked is there and within the budget, alone and with those before it; else the complaint is about the first that is not |
| ArchiveBudget.CheckDecides | src/archiveBudget.ts:21-90 | for any bytes that start like a zip: null exactly when the last end record is on one disk, its directory lies inside the file and within the entry budget, and every header walked passes; bytes that start otherwise are let through |
| ArchiveBudget.EntryFields | src/archiveBudget.ts:69-87 | the walk reads a printed file header's size and lengths back, and steps to the next one |
| ArchiveBudget.EndFields | src/archiveBudget.ts:45-49 | the reads from a printed end record |
| ArchiveBudget.SearchFinds | src/archiveBudget.ts:37-42 | the search stops on the last signature it can meet |
| ArchiveBudget.SumIsSafe | src/archiveBudget.ts:80-82 | the sum of the sizes stays far below the safe-integer guard |
| ArchiveBudget.FindEnd | src/archiveBudget.ts:35-42 | the backward loop |
| ArchiveBudget.WalkDirectory | src/archiveBudget.ts:66-88 | the loop over the headers |
| ArchiveBudget.ArchiveBudgetError | src/archiveBudget.ts:21-90 | on any bytes at all every read is inside them, and the answer is the definition's |

## Left out

- FuzzyMatrix.FuzzyIsComplete: gives a sufficient condition for a non-null answer, sharp in the gap length, and
  TraceIsAffordable a necessary one. The two are not joined into one. Paying for every gap does not suffice
  (`AffordableIsNotEnough`): a cell keeps one prefix, a tie goes to the match and restarts the gap, and the run bonus
  looks back along the kept run, so whether a placement is found depends on every other placement's cells.
- FuzzyMatrix.BestIsMaximal: is about the matrix's own cells. That the answer is the best of all placements is not claimed
  beyond one character: the run bonus makes a cell's best prefix the wrong one for some continuations. What is claimed is
  a lower bound over all of them (`FuzzyIsNoWorse`).
- FuzzyQuery.Run: takes the parsed terms. Splitting a needle, its operators, its one-entry memo and the case folding of
  text and pattern, which can change a string's length, are not modelled; text and its folded twin have equal length here.
- FuzzyScore.Bonuses: takes the characters' classes, any classes, as they are; which class a character has
  (`shared/fuzzy.ts:79-90`) is not modelled. Strings are sequences of characters, not of UTF-16 units.
- `pathScore`, `fuzzy` and the ranking surfaces: one comparison each over what is modelled.
- BrowserFrames.BrowserHost.Apply: decides captures for one view of a pass. Bounds, occlusion verdicts, visibility
  acknowledgements, the paint probe, signals, publishing and the sweep and heartbeat timers only reach it as the
  `visible` argument and the moment of the call.
- Views are values in a map and carry an id for the identity of the object a callback closed over; the heap objects are
  not modelled. Decoded frames have more than 0 bytes, and decoding itself and the high-water and timing counters are absent.
- BrowserFrames.BrowserHost.ReleaseHiddenBrowserFrames: is given the keys of the map in some order; the map's insertion
  order is not kept.
- OcclusionWalk: rectangles are real numbers, and the development-only warnings are absent.
- EventLog and PendingCards: entries carry only the fields the code reads. A card's key string, its questions and its run
  and attempt ids are not kept; the fidelity table and the two text patterns are arbitrary functions.
- Attention: storage always succeeds and starts from any list; a post's field set to `undefined` is treated like one left
  out; which items may reach the system is an arbitrary predicate; counts, badges, toasts and titles are absent.
- AgentTurns: what a turn carries besides its times and its start (files, messages, plans, roots) is absent, and so is a
  failing listener. An emptied chain stays in the map as an empty list.
- Watchdog.ConditionsFor: keys are tuples. The source joins them into strings with colons, where two tabs whose names
  contain colons could share one. Detail texts, sampling and the order of reports inside one tick are absent.
- BackgroundSlots: a release is made by a caller that holds a slot, as the one call site's `finally` does; a signal aborted
  before it was listened to simply never fires.
- BalancedBraces.ExtractJsonObject: the parser is a parameter, and the fenced blocks are given rather than found.
- ArchiveBudget: the messages' figures are absent; the local files are any bytes that start with `PK`.
- Components, hooks, process control, relay, voice, settings, dialogs and copy: no state or arithmetic of their own to
  reason about, or only branch-by-branch tables.
