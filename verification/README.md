# Verified models of a Sudoku game, a Chromecast setup tool and a render thread

These Dafny modules model the parts of the applications where a mistake would be easy to make and hard to notice, and
prove what they promise.

- **Sudoku solving, rating and generating.** An exact backtracking counter over row, column and box masks that are
  changed in place and restored (`SudokuSearch.dfy`, `SudokuCounting.dfy`); a solver that makes the eight kinds of human
  deduction on pencil marks (`SudokuMarks.dfy` to `SudokuChains.dfy`); a clue remover and a generator
  (`SudokuRating.dfy`). The counter counts exactly the completions of a grid. Every deduction keeps every completion, so
  a puzzle that deductions solve has one solution, although they never search. What a technique is, on cells, digits and
  units alone, is in `SudokuPatterns.dfy`; the solver always makes an easiest one, and stops where there is none
  (`SudokuTechniques.dfy`). The generator's puzzles are valid and minimal.
- **The Sudoku game** (`SudokuGame.dfy`, `SudokuUndo.dfy`, `SudokuInvariant.dfy`, `SudokuPlay.dfy`) and its saved form
  (`SudokuSave.dfy`, `SudokuSaveRoundTrip.dfy`, `SudokuLoad.dfy`, `SudokuSaveLimits.dfy`). What an entry does is told
  cell by cell, and mistakes are counted over whole runs (`SudokuEntries.dfy`). A flattened undo log, with moves evicted
  from its front, behaves like a stack of the last 2,000 boards. The saved format, told byte by byte in
  `SudokuSaveBytes.dfy`, is read back exactly, and what the reader accepts satisfies the invariant on which every later
  operation relies.
- **The Chromecast worker** (`ChromecastDevices.dfy`, `ChromecastRemembered.dfy`, `ChromecastWorker.dfy`,
  `ChromecastMailbox.dfy`). Search, open, scan and join against a device, a network and an Android that answer anything
  and a user who interrupts at any pause. The worker's history records what it observed, asked for and told; it never
  claims a join, or success, without the device's own report after the network was sent, gives no failure without a
  reason in it, and at every moment holds at most one Wi-Fi request; a command that no other one overtakes ends by
  telling how. The mailbox between client and worker loses no newest command in any interleaving.
- **Parsers and printers.** JSON against the grammar of RFC 8259, with the printer and the saved device list
  (`ChromecastJson*.dfy`, `ChromecastKnownDevices.dfy`); HTTP/1.1 responses (RFC 9112, sections 4 to 7) read in whatever
  pieces they arrive (`ChromecastHeads.dfy`, `ChromecastChunks.dfy`, `ChromecastReceiving.dfy`); addresses in DNS messages
  (RFC 1035, section 4.1; `ChromecastDiscovery.dfy`). What texts and packets mean is told by their characters and bytes
  in `ChromecastJsonTexts.dfy`, `ChromecastSavedDevices.dfy`, `ChromecastResponses.dfy` and `ChromecastPackets.dfy`.
- **The render thread.** The choice of a frame rate on a grid of vsyncs (`RuntimePacing.dfy`, `RuntimeFramePacer.dfy`),
  told frame by frame in costs and periods in `RuntimeFrameRules.dfy`, and a command queue with barriers and deferred
  acknowledgments of redraws (`RuntimeBarriers.dfy`).

Objects that the program updates in place are classes here, with the same loops; their methods are proved against
functions and predicates, and the promises are proved about those. Bit masks are sets of digits, positions or lines.
Concurrent threads are modelled by the order in which they hold the mutex. Bytes of texts are characters.

Four promises turned out to hold only under a condition, which is stated exactly:

- Saving and loading should give back every valid game. A game that was loaded with
  moves larger than the rules ever make can outgrow the limit on changes; a valid game is loaded back exactly if its log
  has no more than 2,001 times 81 changes (`SavedGames.SavedGameLoads`, `SaveLimits.LoadedGameOutgrows`). Games that
  were created, not loaded, never do.
- How a response is split into reads matters for a 204 or 304 that nevertheless announces and sends a body shorter than
  the read buffer, and for nothing else (`Receiving.SplitFreeExactly`, `Receiving.HastyExists`).
- A floor under the frame interval that misses raised should last through its hold. Without further misses it does
  exactly if the interval was below the slowest or the hold already running ends no earlier than one from now
  (`Pacing.RaisedFloorLasts`); `Pacing.FloorNeedNotLast` is a run to a frame where it does not.
- A device should be remembered once. A list without repetition stays one exactly if no two entries are the device being
  remembered (`Remembered.OnceExactly`), which MAC addresses ensure (`Remembered.AddressesSuffice`);
  `Remembered.ListedTwice` is a list that starts empty and ends with a device in it twice.

Run `dafny verify dfyconfig.toml` to check everything.

## Model

| member | source | states |
|---|---|---|
| Solutions.SolutionByUnits | sudoku/puzzle.cc:35-51 | a full grid of digits is a solution exactly if each of the 27 units shows all nine digits, which ties the pairwise rule to the unit tables |
| Cells.SeesExactly | sudoku/puzzle.cc:35-51 | by bands, stacks and lines: two cells see each other exactly if they differ and share a row, a column or a square of three by three |
| Cells.UnitsExactly | sudoku/puzzle.cc:35-51 | a cell lies in exactly three of the 27 units: its row, its column and its square, numbered in that order |
| Solutions.Completions | sudoku/puzzle.cc:434-441 | the set of all solutions that extend a grid; every counting claim below is about its size |
| Solutions.FewerClues | sudoku/puzzle.cc:140-141 | removing clues never removes a completion, the fact behind the comment on minimality |
| Counting.Search.Load | sudoku/puzzle.cc:75-88 | loading succeeds exactly if all clues are digits and no two equal clues see each other; then the masks and cells hold the grid |
| Counting.Search.Open | sudoku/puzzle.cc:96 | the mask from row, column and box is exactly the set of digits that can still go in the cell |
| Counting.Search.MostConstrained | sudoku/puzzle.cc:92-104 | returns an empty cell with no more open digits than any other empty cell (or at most one), and -1 exactly if the grid is full |
| Counting.DigitOrder | sudoku/puzzle.cc:109-113 | the digits tried are exactly those of the mask, each once, ascending when not shuffled |
| Counting.Shuffle | sudoku/puzzle.cc:113 | a shuffle permutes the front of the array and leaves the rest |
| Counting.Search.Set | sudoku/puzzle.cc:116-120 | setting a digit updates the three masks and the cell to describe the grid with that digit |
| Counting.Search.Unset | sudoku/puzzle.cc:122-125 | clearing the digit brings back exactly the masks and cells from before |
| Counting.Search.AddToMasks | sudoku/puzzle.cc:117-119 | only the masks of the cell's own row, column and box gain the digit |
| Counting.Search.RemoveFromMasks | sudoku/puzzle.cc:122-124 | only the masks of the cell's own row, column and box lose the digit |
| Counting.Search.Branch | sudoku/puzzle.cc:115-128 | trying some digits in a cell counts exactly the completions with one of them, up to the limit, and restores the grid |
| Counting.Search.Run | sudoku/puzzle.cc:91-129 | for any digit order: masks and cells end as they began, the count grows by the number of completions but not past the limit, it stops exactly at the limit, and the first solution kept is a completion |
| Counting.CountSolutions | sudoku/puzzle.cc:434-441 | returns min(max(1, limit), number of completions), so 0 for conflicting grids, and copies out a real completion exactly when the count is positive |
| SearchSpace.FreeDigitFits | sudoku/puzzle.cc:96 | placing an open digit keeps a consistent grid consistent |
| SearchSpace.CompletionDigitIsFree | sudoku/puzzle.cc:96 | every completion puts one of the open digits in the cell, so no branch is missed |
| SearchSpace.FixingDigit | sudoku/puzzle.cc:115-121 | fixing a digit keeps exactly the completions that show it |
| SearchSpace.CoveredAll | sudoku/puzzle.cc:109-128 | the branches over all open digits together cover every completion |
| SearchSpace.BranchStep | sudoku/puzzle.cc:115-128 | different branches find different completions, so counts add up, and each branch is smaller |
| SearchSpace.FullGrid | sudoku/puzzle.cc:105-108 | a full consistent grid has itself as its only completion |
| SearchSpace.Conflict | sudoku/puzzle.cc:79-81 | a grid with conflicting clues has no completion |
| Counting.RandomSolution | sudoku/puzzle.cc:131-138 | the result is a valid full grid whatever the random choices |
| Counting.Minimize | sudoku/puzzle.cc:140-153 | the puzzle's clues are clues of the given grid; for a valid grid it is the puzzle's only completion, and dropping any remaining clue leaves at least two completions |
| Counting.StaysNecessary | sudoku/puzzle.cc:140-141 | a clue that was needed stays needed when further clues go |
| Counting.NecessaryCluesAreMinimal | sudoku/puzzle.cc:140-141 | if every clue is needed, the puzzle is minimal |
| Counting.SoleCompletion | sudoku/puzzle.cc:150 | a count of one means the original grid is the only completion |
| Counting.ClueDropped | sudoku/puzzle.cc:149-150 | a clue that can go leaves the same single completion |
| Counting.EveryCell | sudoku/puzzle.cc:144-147 | the random order visits every cell |
| Counting.Below | sudoku/puzzle.cc:63 | a random choice is below its bound |
| Marks.PlaceKeepsFit | sudoku/puzzle.cc:163-168 | placing a completion's digit keeps the completion compatible with the marks and the consistency flag unchanged |
| Marks.WithoutKeepsFit | sudoku/puzzle.cc:170-177 | eliminating marks that a completion does not use keeps it compatible and the flag unchanged |
| Marks.PlaceKeepsValid | sudoku/puzzle.cc:163-168 | placing keeps filled cells free of marks and marks free of digits already seen |
| Marks.HitsChanges | sudoku/puzzle.cc:170-177 | elimination reports progress exactly if a mark went away |
| Marks.HitsTwice | sudoku/puzzle.cc:231-234 | progress over several eliminations is the disjunction of their progress |
| LogicState.Logic.PlaceDigit | sudoku/puzzle.cc:163-168 | the value is set, the cell's marks and the digit's marks at all peers are gone, and the flag is cleared exactly if the reference disagrees |
| LogicState.Logic.Eliminate | sudoku/puzzle.cc:170-177 | exactly the given digits leave the cell's marks; progress exactly if one was there; the flag drops exactly if the reference's digit was one of them |
| LogicState.Logic.Sweep | sudoku/puzzle.cc:231-234 | one more cell of a batch of eliminations, with its progress added |
| LogicState.Lowest | sudoku/puzzle.cc:26 | the lowest digit of a mask is its least member |
| Soundness.TrueSpot | sudoku/puzzle.cc:188-203 | a digit's place in a completion is among its spots in every unit |
| Soundness.HiddenSingleSound | sudoku/puzzle.cc:188-203 | a digit with one spot in a unit has that spot in every completion |
| Soundness.LockedSound | sudoku/puzzle.cc:205-237 | no completion has the digit where a locked candidate clears it |
| Soundness.CellsTakeDigits | sudoku/puzzle.cc:242-257 | cells that must hold as many digits as there are cells use them all up (pigeonhole) |
| Soundness.NakedSubsetSound | sudoku/puzzle.cc:242-257 | no completion uses a naked subset's digits elsewhere in the unit |
| Soundness.DigitsTakePositions | sudoku/puzzle.cc:258-277 | digits confined to as many places fill them (pigeonhole) |
| Soundness.HiddenSubsetSound | sudoku/puzzle.cc:258-277 | a hidden subset's cells hold only its digits in every completion |
| Soundness.LinesTakeCover | sudoku/puzzle.cc:282-314 | lines whose spots lie in as many cross lines take all of them |
| Soundness.FishSound | sudoku/puzzle.cc:282-314 | no completion has the digit where a fish clears it |
| Soundness.XyWingSound | sudoku/puzzle.cc:316-335 | no completion has an XY-wing's third digit in a cell that sees both ends |
| Soundness.XyzWingSound | sudoku/puzzle.cc:337-359 | no completion has an XYZ-wing's shared digit in a cell that sees all three |
| Soundness.LinkSound | sudoku/puzzle.cc:361-365 | each strong and weak link forces what it says in every completion |
| Soundness.ReachSound | sudoku/puzzle.cc:361-365 | everything a chain marks on or off is so in every completion where the start is false |
| Soundness.ChainProofSound | sudoku/puzzle.cc:416-418 | a chain that forces its start true places the start's digit as in every completion |
| Soundness.ChainEliminationSound | sudoku/puzzle.cc:420-428 | what a chain clears is false whether or not the start is true |
| Soundness.PlacedSound | sudoku/puzzle.cc:179-203 | every placement of every rule is the digit of every compatible completion |
| Soundness.GoneSound | sudoku/puzzle.cc:205-431 | no elimination of any rule takes a digit that a compatible completion uses |
| Soundness.StepSound | sudoku/puzzle.cc:163-431 | every applicable step of the eight rules keeps the marks well formed, every compatible completion compatible, and the consistency flag when the reference is a completion |
| Soundness.StepShrinks | sudoku/puzzle.cc:453-477 | every step that makes progress strictly lowers the number of marks, so the loop ends |
| Runs.StartFits | sudoku/puzzle.cc:444-452 | a full grid is compatible with the marks after placing the givens exactly if it completes the givens |
| Runs.StartOneMore | sudoku/puzzle.cc:448-452 | placing one more given is the start of the puzzle with that given |
| Runs.RunSound | sudoku/puzzle.cc:443-480 | after any run of steps each completion still fits: placed values are its digits and marks contain the rest; the flag stays true for a reference that is a completion |
| Runs.CompleteIsUnique | sudoku/puzzle.cc:463-466 | a run that fills the grid proves the result to be the only completion |
| Runs.DeadHasNone | sudoku/puzzle.cc:455-462 | an empty cell without marks proves there is no completion |
| Runs.SolvedFlag | sudoku/puzzle.cc:163-178 | when a run fills the grid, the flag is still set exactly if the reference is the one completion |
| Singles.NakedSingle | sudoku/puzzle.cc:179-186 | makes one naked-single step, or changes nothing and there is none |
| Singles.CountSpots | sudoku/puzzle.cc:191-196 | counts the digit's spots in a unit and remembers one |
| Singles.HiddenSingle | sudoku/puzzle.cc:188-203 | makes one hidden-single step, or changes nothing and there is none |
| Singles.SpotLines | sudoku/puzzle.cc:211-217 | collects exactly the rows, columns and boxes that hold a spot |
| Singles.LockedTarget | sudoku/puzzle.cc:218-226 | the target unit is the one whose pattern applies, rows before columns, or -1 when none does |
| Singles.LockedByLines | sudoku/puzzle.cc:219-225 | being confined to a unit is having a single row, column or box |
| Singles.ClearOutside | sudoku/puzzle.cc:227-233 | clears the digit in the target unit outside the unit, reporting progress |
| Singles.LockedCandidates | sudoku/puzzle.cc:205-237 | makes one locked-candidates step, or changes nothing and there is none |
| Combinations.NumberOf | sudoku/puzzle.cc:243 | every set of small numbers is the set bits of a number below the power, so counting to 511 meets every combination |
| Combinations.Join | sudoku/puzzle.cc:245-252 | joins the entries of a combination and fails exactly if one is empty |
| Subsets.NakedApplies | sudoku/puzzle.cc:244-252 | the mask test of the loop is the naked-subset pattern |
| Subsets.HiddenApplies | sudoku/puzzle.cc:264-272 | the mask test of the loop is the hidden-subset pattern |
| Subsets.ClearAt | sudoku/puzzle.cc:253-256 | clears some digits at some places of a unit, reporting progress |
| Subsets.SpotTable | sudoku/puzzle.cc:259-262 | tabulates each digit's spots in a unit |
| Subsets.NakedSubsets | sudoku/puzzle.cc:242-257 | makes one naked-subset step of a size in a unit, or changes nothing and there is none |
| Subsets.HiddenSubsets | sudoku/puzzle.cc:258-277 | makes one hidden-subset step of a size in a unit, or changes nothing and there is none |
| Subsets.AllSubsets | sudoku/puzzle.cc:239-280 | makes one subset step of size 2 to 4, or changes nothing and there is none anywhere |
| FishAndWings.LineTable | sudoku/puzzle.cc:287-292 | tabulates a digit's spots by row or by column |
| FishAndWings.FishApplies | sudoku/puzzle.cc:293-302 | the mask test of the loop is the fish pattern |
| FishAndWings.ClearFish | sudoku/puzzle.cc:303-310 | clears the digit in the cover outside the fish's lines, reporting progress |
| FishAndWings.FishOf | sudoku/puzzle.cc:293-312 | makes one fish step of a size, digit and direction, or changes nothing and there is none |
| FishAndWings.AllFish | sudoku/puzzle.cc:283-314 | makes one fish step of size 2 to 4, or changes nothing and there is none |
| FishAndWings.ClearSeeing | sudoku/puzzle.cc:327-329 | clears digits in the cells that see both ends (and the pivot), reporting progress |
| FishAndWings.XyWing | sudoku/puzzle.cc:316-335 | makes one XY-wing step, or changes nothing and there is none |
| FishAndWings.XyzWing | sudoku/puzzle.cc:337-359 | makes one XYZ-wing step, or changes nothing and there is none |
| ClaimSearch.QueueFits | sudoku/puzzle.cc:380 | each node and polarity is queued at most once, so 1,458 queue entries are enough, with one to spare for every unseen entry |
| ClaimSearch.FollowOne | sudoku/puzzle.cc:390-415 | following one queued claim extends the breadth-first search by exactly its links |
| ClaimSearch.SearchExact | sudoku/puzzle.cc:384-415 | when the queue is empty, the entries seen are exactly the claims within the allowed number of links |
| Chains.SumSpots | sudoku/puzzle.cc:369-378 | a non-negative sum is stored exactly for units with two spots, and it lets either spot find the other |
| Chains.ReadBilocal | sudoku/puzzle.cc:367-378 | the whole table of bilocal units |
| Chains.Frontier.Visit | sudoku/puzzle.cc:395-402 | an unseen node is marked, queued once and, if it is the start turned on, proves the start; a seen one changes nothing |
| Chains.OtherCell | sudoku/puzzle.cc:407-408 | the stored sum less one cell is the other cell of the strong link |
| Chains.FollowPartner | sudoku/puzzle.cc:404-406 | visits exactly the other candidate of a cell with two |
| Chains.FollowStrong | sudoku/puzzle.cc:404-408 | visits exactly the claims that a false candidate forces true |
| Chains.FollowWeak | sudoku/puzzle.cc:409-414 | visits exactly the claims that a true candidate forces false |
| Chains.SearchFrom | sudoku/puzzle.cc:381-415 | proves the start exactly if the start is forced true within the limit; otherwise what is seen is exactly what is forced |
| Chains.ClearLinked | sudoku/puzzle.cc:420-428 | clears exactly the candidates that the chain turned off and that see the start, reporting progress |
| Chains.ChainFrom | sudoku/puzzle.cc:381-429 | makes the chain step from one candidate, or changes nothing and there is none |
| Chains.AllChains | sudoku/puzzle.cc:361-431 | makes one chain step, or changes nothing and there is none |
| Rater.Deduce | sudoku/puzzle.cc:467-473 | makes one step of the lowest level that has any, or changes nothing and no rule applies |
| Rater.Inspect | sudoku/puzzle.cc:454-462 | tells a full grid and a dead one apart |
| Rater.Give | sudoku/puzzle.cc:444-452 | accepts exactly the givens without a conflict and starts the marks from them |
| Rater.Rate | sudoku/puzzle.cc:443-480 | conflicting givens get the empty rating; otherwise a course of moves leads from the givens, in which every move of level n uses a technique of that level, stated on cells, digits and units, while no technique of a lower level has a mark to clear; it ends full, with a cell without candidates, or with nothing left for any technique; level, advanced and chain counts are those of the course; solved implies exactly one completion, and then the flag is set exactly if the reference is that completion; a dead end implies there is none; a reference that is a completion stays consistent |
| Techniques.StepMakes | sudoku/puzzle.cc:179-432 | every step the solver can take is one use of its level's technique: a single written, or exactly the marks that a locked digit, subset, fish, wing or chain forbids rubbed out, with the flag falling exactly if the reference's digit is among them |
| Techniques.NothingLeft | sudoku/puzzle.cc:179-432 | where the solver finds no step up to a level, no technique up to that level, on any units, cells and digits, has a digit to write or a mark to clear |
| Techniques.ReachIsChains | sudoku/puzzle.cc:361-415 | a claim is reached from a false candidate exactly if a chain of at most so many links leads to it, in which each claim forces the next |
| Rater.StartIsGiven | sudoku/puzzle.cc:446-452 | the first state has the givens written and, in each empty cell, the digits that no given in sight shows |
| Rater.StopIsOver | sudoku/puzzle.cc:453-473 | where no step is possible the board is full or no technique has anything to do |
| Rater.EasiestShrinks | sudoku/puzzle.cc:453-477 | each round lowers the number of marks |
| Rater.ExtremeByChains | sudoku/puzzle.cc:482-485 | a rating is extreme exactly if it is solved with at least four chain steps |
| Rater.GeneratePuzzle | sudoku/puzzle.cc:487-496 | every puzzle returned is valid, minimal and filled by a course of techniques, easiest first, with at least four chain moves |
| GameRules.FirstWithinTotal | sudoku/game.cc:65-72 | evicting the oldest move takes no more changes than there are, and the sizes left still add up |
| UndoHistory.RewindErased | sudoku/game.cc:181-186 | the recorded marks restore every note that entering a digit removed |
| UndoHistory.RestoreRecord | sudoku/game.cc:61-63 | a recorded change restores the cell it was taken from |
| UndoHistory.PastLength | sudoku/game.cc:34-35 | the log holds one earlier board for every move |
| UndoHistory.PastEvict | sudoku/game.cc:68-71 | evicting the oldest move forgets the oldest board and nothing else |
| UndoHistory.FinishPushes | sudoku/game.cc:65-72 | finishing a move pushes the board it started from and, past 2,000 moves, drops the oldest |
| UndoHistory.EnterRewinds | sudoku/game.cc:165-197 | the changes that entering a digit records undo exactly that entry |
| UndoHistory.EraseRewinds | sudoku/game.cc:199-210 | the change that erasing records undoes exactly that erasure |
| UndoHistory.StepRefines | sudoku/game.cc:161-232 | each operation on the flattened log is the same operation on a plain stack of earlier boards |
| UndoHistory.RunRefines | sudoku/game.cc:161-232 | over any run of operations, undo included, the flattened log cannot be told from a stack of the last 2,000 boards |
| UndoHistory.UndoPops | sudoku/game.cc:212-225 | an undo brings back the newest earlier board, drops it from the stack and refunds no mistake |
| UndoHistory.RunRemembers | sudoku/game.cc:165-225 | after moves without undo, the board from before the last n of them is n deep in the stack |
| UndoHistory.UndoRestores | sudoku/game.cc:165-225 | up to 2,000 changing moves, mixed with selections and mode toggles and ending in play, are undone by as many undos: values and notes as before, mistakes as after |
| GameInvariant.EnterKeeps | sudoku/game.cc:165-197 | entering a digit keeps the invariant of the decoder: givens, ranges, and move sizes that are positive and add up to the changes |
| GameInvariant.EraseKeeps | sudoku/game.cc:199-210 | erasing keeps the invariant |
| GameInvariant.UndoKeeps | sudoku/game.cc:212-225 | undoing keeps the invariant |
| GameInvariant.StepKeeps | sudoku/game.cc:161-232 | every operation keeps the invariant |
| GameInvariant.AddedIsValid | sudoku/game.cc:229-232 | whatever rounding does, the seconds played stay finite and not negative, time that is added leaves at most 359,999, and a count within that is never turned back |
| GameInvariant.RunKeeps | sudoku/game.cc:161-232 | every run of operations keeps the invariant; from games whose moves change at most 81 cells it also keeps the change count within the saved format's limit |
| GameInvariant.CreateKeeps | sudoku/game.cc:131-138 | a created game satisfies the invariant |
| Games.ValidSolution | sudoku/game.cc:84-97 | accepts exactly the solutions |
| Games.UnitDigits | sudoku/game.cc:86-94 | collects exactly the digits of a unit, or finds one out of range |
| Games.CheckPuzzle | sudoku/game.cc:99-105 | accepts exactly the puzzles whose clues come from a valid grid that is their only completion |
| Games.CreateGame | sudoku/game.cc:131-138 | succeeds exactly for valid puzzles, with the givens as values and an empty log |
| Games.Game.GetStatus | sudoku/game.cc:51-54 | lost exactly from three mistakes on, else won exactly if every cell shows the solution's digit, else playing |
| Games.Game.MayEdit | sudoku/game.cc:56-59 | a cell may change exactly in play, without a given and not yet right |
| Games.Game.RecordCell | sudoku/game.cc:61-63 | appends the cell's present value and notes to the log |
| Games.Game.FinishMove | sudoku/game.cc:65-72 | groups the new changes into one move and evicts the oldest move past 2,000 |
| Games.Game.UnitDone | sudoku/game.cc:74-82 | a unit is complete exactly if all nine cells are right |
| Games.Game.RemoveMarks | sudoku/game.cc:181-186 | removes the digit's notes from empty related cells, recording each |
| Games.Game.CompletedUnits | sudoku/game.cc:187-189 | reports exactly the completed units of the cell |
| Games.Game.SelectCell | sudoku/game.cc:161-163 | moves the selection only within the board |
| Games.Game.EnterDigit | sudoku/game.cc:165-197 | the cell, the notes of every other cell, the mistakes, the status and the reported units are as the rules say, cell by cell: ignored where nothing may change; in note mode the digit's note is switched; a right digit leaves the notes of exactly the empty cells in its row, column and box and completes the units that are right; a wrong one is a mistake; the invariant holds after |
| Games.Game.EraseCell | sudoku/game.cc:199-210 | an editable cell loses its digit and notes, or only nothing where there is none, and every other cell, the mistakes and the mode stay |
| Entries.EnterMeans | sudoku/game.cc:165-197 | the rule for entering leaves the board, mistakes, mode and selection that are stated cell by cell, and one more move exactly if something changed |
| Entries.EraseMeans | sudoku/game.cc:199-210 | the same for erasing |
| Entries.StatusIs | sudoku/game.cc:51-54 | the status is the stated one: lost from three mistakes, won with the solution shown |
| Entries.MayChangeIs | sudoku/game.cc:56-59 | a cell may change exactly in play, within the board, without a given and not showing its right digit |
| Entries.MistakesCount | sudoku/game.cc:165-197 | over every run the mistakes grow by exactly the number of wrong digits entered outside note mode where the cell may change, whatever is undone, and the game is lost exactly from three on |
| Entries.LostAtThree | sudoku/game.cc:51-52 | lost means at least three mistakes, and nothing else |
| Entries.UndoTakesBack | sudoku/game.cc:212-227 | undoing right after a change gives the board and the selection from before it, and keeps the mistakes |
| Entries.TwoThousandMoves | sudoku/game.cc:65-72 | the log holds one more move after each change, up to 2,000 |
| Games.Game.UndoMove | sudoku/game.cc:212-225 | undoes the newest move in play and selects its first cell, or changes nothing |
| Games.Game.PopChanges | sudoku/game.cc:217-222 | takes back some changes, newest first |
| Games.Game.ToggleNotes | sudoku/game.cc:227 | switches note mode and nothing else |
| Games.Game.AddTime | sudoku/game.cc:229-232 | only finite seconds above zero count, only in play, and the sum is capped at 359,999 seconds |
| SaveFormat.U16RoundTrip | sudoku/game.cc:107-129 | two bytes hold a 16-bit number |
| SaveFormat.U32RoundTrip | sudoku/game.cc:107-129 | four bytes hold a 32-bit number |
| SaveFormat.NotesRoundTrip | sudoku/game.cc:20-23 | a set of notes is its 9-bit mask |
| SaveFormat.BitsRoundTrip | sudoku/game.cc:20-23 | a 9-bit mask is its set of notes |
| SaveRoundTrip.Parts | sudoku/game.cc:234-253 | where each field of a saved game lies |
| SaveRoundTrip.ReadEncode | sudoku/game.cc:234-298 | reading an encoded game gives back every field of it |
| SaveRoundTrip.EncodeRead | sudoku/game.cc:234-298 | encoding what was read gives back the same bytes |
| SaveBytes.ReadIsSpelled | sudoku/game.cc:255-298 | what is read is told byte by byte: the magic word and version, little-endian words, and notes as the bits of a mask |
| SaveBytes.SaveIsSpelled | sudoku/game.cc:234-253 | what is written is spelled so, byte by byte |
| SaveBytes.SpelledIsRead | sudoku/game.cc:234-298 | bytes that spell a game so are the ones written for it, and are read as it |
| SaveBytes.AcceptableExactly | sudoku/game.cc:270-292 | the games that can be loaded are exactly those whose puzzle has one solution, whose digits, notes and cells are in range and agree with the givens, and whose move sizes are positive and add up to the log |
| SavedGames.EncodeGame | sudoku/game.cc:234-253 | the bytes of a game, field by field |
| SavedGames.Reader.Get | sudoku/game.cc:117-128 | a field is taken only if all its bytes are there |
| SavedGames.GetHead | sudoku/game.cc:265-269 | the fixed part is accepted exactly with its length, magic number and version |
| SavedGames.GetMoves | sudoku/game.cc:276-280 | move sizes are accepted exactly if all are positive, and are added up |
| SavedGames.GetChanges | sudoku/game.cc:281-284 | changes are accepted exactly if every one is in range and spares the givens |
| SavedGames.CellsInRange | sudoku/game.cc:289-292 | values and notes are accepted exactly if in range and equal to the givens |
| SavedGames.DecodeGame | sudoku/game.cc:255-298 | accepts exactly the byte strings of the format, and what it accepts satisfies the invariant and is what the bytes say |
| SavedGames.ChecksAccept | sudoku/game.cc:270-292 | the checks of the decoder together establish the invariant that later operations rely on |
| SavedGames.AcceptedChecks | sudoku/game.cc:270-292 | every accepted byte string passes each check, so none is too strict |
| SavedGames.SavedGameLoads | sudoku/game.cc:234-298 | a valid game is read back unchanged exactly if its log has no more than 2,001 times 81 changes |
| SavedGames.LoadedGameSaves | sudoku/game.cc:234-298 | an accepted byte string is the only encoding of the game it holds |
| SaveLimits.LoadedGameOutgrows | sudoku/game.cc:270-273 | a loaded game whose moves are larger than any the rules make can, after one more move, be saved but not loaded again |
| SaveLimits.CreatedGameSaves | sudoku/game.cc:131-298 | a created game can be saved and loaded unchanged after every run of operations |
| Worker.Session.AddDevice | chromecast/session.cc:203-208 | one entry per device: an unknown one is appended; a known one replaces the first entry for the same hardware only if that was on a hotspot and the new one is not |
| Worker.Session.Publish | chromecast/session.cc:54-61 | a snapshot is published with the requests held at that moment, and only with the evidence that its claims need |
| Worker.Session.ReleaseRequests | chromecast/session.cc:111-116 | no platform request is held any more and the prompt is off |
| Worker.Session.RequestNetwork | chromecast/session.cc:288-293 | a granted request is new and held from then on; a refusal is recorded and changes nothing else |
| Worker.Session.ReadInfo | chromecast/session.cc:181-197 | what the attempts came to is recorded, with the endpoint that answered: information, or silence |
| Worker.Session.AskInfo | chromecast/session.cc:181-197 | HTTPS is asked first; the basic page follows exactly a 400 or 404, plain HTTP exactly a TLS connection that came to nothing; nothing else follows, and only an answer with status 200 gives information |
| Worker.Session.FindDevices | chromecast/session.cc:210-237 | unless another command waits, exactly the candidates are asked, one after the other, on a hotspot only its address; the devices are those that answered, in order, one entry for the same hardware, each marked as on its hotspot exactly if the network is the hotspot's |
| Worker.Session.Fail | chromecast/session.cc:239-246 | with a reason in the history, every request is released, then the failure is published with the stage that failed and nothing held |
| Worker.Session.JoinHotspot | chromecast/session.cc:276-332 | on success the device is recognised on its hotspot, over the endpoint kept, and no target request is held; otherwise a failure was told or another command waits |
| Worker.Session.ProbeHotspot | chromecast/session.cc:297-308 | each hotspot the phone is on is asked at its address; the device counts as there by the first answer there of the same hardware, or of any if it is unidentified; otherwise nobody else answered there and it is left as it was |
| Worker.Session.Scan | chromecast/session.cc:334-388 | unless another command waits, the networks shown are those last read from the device in hand, or the failure told follows a refused scan or results that could not be had |
| Worker.Session.PollScan | chromecast/session.cc:348-376 | the results are read until there are some, and at most six times |
| Worker.Session.Open | chromecast/session.cc:392-422 | whatever answers, the history stays honest and at most one request is held; unless another command waits, it ends with networks shown or a failure told |
| Worker.Session.RunSearch | chromecast/session.cc:250-274 | unless another command waits, every network was searched, and the list shown at the end, with no request held, is the devices gathered on them, those off a hotspot first, and then exactly the remembered ones that were not found; those found are remembered, in order |
| Worker.Session.Keep | chromecast/session.cc:156-172 | a device is remembered by the session, whatever is under way |
| Worker.ListIsComplete | chromecast/session.cc:262-273 | the list shows every device found, and an entry for every remembered one |
| Worker.MissingInOrder | chromecast/session.cc:267-270 | the remembered devices that were not found follow in their order |
| Worker.Session.RequestTarget | chromecast/session.cc:430-450 | the hotspot's request is released before the target's is made, so at most one is held; a refusal is told as a failure |
| Worker.Session.FindOnLan | chromecast/session.cc:452-463 | found means an answer from the same hardware on a network that is not the hotspot's; unless another command waits, not found means that all those networks were searched and no device gathered there was the same |
| Worker.Session.NetworkSaved | chromecast/session.cc:469-477 | saved exactly if the state is 62, or the name is among the networks configured at the endpoint where the device was last recognised, which are not asked for in state 61 |
| Worker.Session.SaveWifi | chromecast/session.cc:506-511 | the device is asked to save at the endpoint where it was last recognised; saved exactly if what it answered then confirms it |
| Worker.Session.Relocate | chromecast/session.cc:490-498 | asked first where it was, then looked for; whoever is accepted is the same hardware |
| Worker.Session.ConfirmSaved | chromecast/session.cc:487-513 | saved exactly if the device confirmed it since saving began; whenever it was recognised it was asked to save unless it had; not on the network, or refused by Android, is told as a failure |
| Worker.Session.LookOnLan | chromecast/session.cc:525-531 | goes on looking with the confirmation kept, and with where the device was last recognised |
| Worker.Session.Announce | chromecast/session.cc:539-550 | done is told with no request held, for this device, and only with the saving seen after the join and the last contact off the hotspot, over the published endpoint, by a device that reports the target network |
| Worker.Session.Finish | chromecast/session.cc:481-551 | from a seen join: unless another command waits, it ends with success or a failure told; a failure that may be tried again means the device went elsewhere, or confirmed nothing although asked each time it was recognised; another that Android refused, or that it saved but could not be verified on the network; on success the device is remembered |
| Worker.Session.WatchJoin | chromecast/session.cc:606-630 | the wait ends exactly if the same hardware answers that it failed, by a state among 21, 31, 32, 41, 51, 53 and 54, or that it is on the network; only its answer changes what is known; silence or a state from 20 below 60 counts as having left |
| Worker.Session.AwaitJoin | chromecast/session.cc:599-684 | joining is told at once; a failure of joining is told only on the device's own report, or when nothing says that it left, which may be tried again; otherwise it is looked for; unless another command waits, it ends with success or a failure told |
| Worker.Session.LookOn | chromecast/session.cc:646-672 | a device found on another network ends the search exactly by its own report, answered in this look, that it is on the target network, failed or went elsewhere; otherwise every candidate there was asked and none reported so |
| Worker.Session.FindJoined | chromecast/session.cc:638-684 | looking for the device that left: a failure that may be tried again rests on its own report that it failed or went elsewhere, another means that it was not recognised since; no snapshot claims the join before an answer, given after the network was sent, that reports it |
| Worker.Session.SendNetwork | chromecast/session.cc:572-603 | the network goes out, to the endpoint of the device recognised immediately before, or the command ends in a failure because there was no acceptable answer, encryption failed, or the last post was refused or did not leave the phone |
| Worker.Session.SendEncrypted | chromecast/session.cc:587-603 | the last post decides: status 200 or a lost answer to what left the phone counts as sent, and joining follows; anything else is told as a failure |
| Worker.Session.PostTwice | chromecast/session.cc:587-590 | it is posted keeping the hotspot exactly if the device is on its own and can; only an answer 400 to that is followed by a second post, without |
| Worker.Session.RunJoin | chromecast/session.cc:553-684 | an index out of range does nothing; otherwise the network goes out and joining is told, or the command ends in a failure: without another try for an unsupported network, with one for a bad password, and otherwise for want of an acceptable answer, encryption or an accepted post; unless another command waits, it ends with success or a failure told |
| Worker.Session.RunOpen | chromecast/session.cc:424-428 | opening by an index that may be out of range keeps the same and ends the same |
| Worker.Session.Run | chromecast/session.cc:686-721 | over every sequence of commands, every snapshot is honest: a network goes out only if it can be joined; joined only after the device in hand, once the network was sent, answered that it is on it with state 60 to 64; done only if saving was confirmed after that, by the device's answer or at the endpoint of its last contact, and the last contact, off the hotspot and over the published endpoint, reported the network; every failure has its reason; after sending, only the hardware in hand is recognised; at every moment at most one request is outstanding, none when listing, done or failed, and none at exit |
| Worker.DoneWasReported | chromecast/session.cc:539-550 | behind every done there is the last contact with the device: after the network was sent, an answer was received, off its hotspot and over the published endpoint, in which it said it is on the target network; the device published is the one in hand |
| Worker.DoneWasSaved | chromecast/session.cc:487-550 | behind every done the order is: the network was sent, the device reported the join, and then saving was confirmed, by the device when it was recognised or at the endpoint of the last contact before |
| Worker.JoinableNetworks | chromecast/protocol.cc:194-211 | a network can be joined exactly with authentication 1, 5, 7 or 9 and cipher 1, 3, 4 or 5, and needs a password unless it is open; a password has 8 to 63 printable characters or is 64 hexadecimal digits |
| Worker.SentIsJoinable | chromecast/session.cc:563-598 | in an honest history every network sent can be joined and has a password that can be one |
| Worker.StagesOfJoining | chromecast/session.cc:599-684 | joining is told right after sending, finding after a sign that the device left, and a failure of joining by the device's own report or for want of such a sign |
| Worker.SilenceClaimsNothing | chromecast/session.cc:599-600 | a join during which no answer since the network was sent reports the target network is never shown as joined or done |
| Worker.RecognisedByAnswer | chromecast/session.cc:606-612 | whoever is recognised after the network was sent has answered after it was sent |
| Worker.OnlyTheDevice | chromecast/session.cc:606-630 | after the network was sent, whoever is recognised is the same hardware as the device in hand |
| Worker.DoneIsTheDevice | chromecast/session.cc:539-550 | then the device of which done is told has the MAC address of the one shown when sending began |
| Worker.JoinedIsOfTheLastJoin | chromecast/session.cc:392-402 | a snapshot that says joined is about the latest join, in which the device reported the network, and is stale exactly if it belongs to a later command |
| Devices.AtMostOneRequest | chromecast/session.cc:280-310 | in an honest history at most one request is outstanding at every moment |
| Devices.FailedStates | chromecast/protocol.cc:99-102 | the states that end a join are 21, 31, 32, 41, 51, 53 and 54 |
| Devices.SameDeviceMeans | chromecast/protocol.cc:213-217 | MAC addresses decide, without case, where both are known, then UDNs, then equal public keys |
| Worker.Partition | chromecast/session.cc:266 | devices off a hotspot come first, each group in its order |
| Worker.SideInOrder | chromecast/session.cc:266 | the devices on one side of the partition keep their order |
| Mailboxes.TurnKeeps | chromecast/session.cc:54-85 | every critical section keeps the mailbox invariant |
| Mailboxes.AlwaysInvariant | chromecast/session.cc:686-737 | in every interleaving: interrupted exactly if a command waits, executed numbers strictly increase, numbers never run ahead of each other |
| Mailboxes.NewestIsKept | chromecast/session.cc:723-737 | until a stop, the newest command is waiting or was the last taken up; a stop is never replaced |
| Mailboxes.StoppedByDestroy | chromecast/session.cc:769-776 | only destroying the session stops the worker |
| Mailboxes.Mailbox.SendCommand | chromecast/session.cc:723-737 | a command gets the next number and replaces a waiting one, unless a stop waits |
| Mailboxes.Mailbox.Shutdown | chromecast/session.cc:769-776 | a stop replaces whatever waits |
| Mailboxes.Mailbox.TakeCommand | chromecast/session.cc:690-699 | the waiting command is taken with its argument and password, and the flag is cleared |
| Mailboxes.Mailbox.PublishSnapshot | chromecast/session.cc:54-58 | the shared snapshot carries the number of the command being run |
| Mailboxes.Mailbox.Interleave | chromecast/session.cc:686-737 | the fields go through every interleaving as the abstract mailbox does, and satisfy its invariant after it |
| Mailboxes.AppliedIsNewest | chromecast/app.cc:394-409 | with a single client, every snapshot applied is about the last command sent |
| Mailboxes.Mailbox.TakeSnapshot | chromecast/app.cc:394-402 | a snapshot is applied exactly if it is no older than the command awaited |
| Worker.OneDevice | chromecast/protocol.cc:213-217 | where every answer of a command tells a MAC address, the device in hand has the same one from first to last |
| Worker.SamenessDrifts | chromecast/protocol.cc:213-217 | by three answers, with UDN and MAC address, only a UDN, and both again, that sameness need not carry over from the first to the last |
| JsonGrammar.EncodesExactly | chromecast/json.cc:27-42 | for scalar values the encoder and an RFC 3629 decoder (shortest form, no surrogates) are inverse to each other, in both directions |
| JsonParsing.NumberSound | chromecast/json.cc:113-138 | a number that is read has the grammar of RFC 8259, section 6 |
| JsonParsing.NumberComplete | chromecast/json.cc:113-138 | every number of the grammar is read to its end |
| JsonParsing.EscapeIsPiece | chromecast/json.cc:70-105 | an escape is read exactly if it is one of section 7, as the bytes it denotes |
| JsonParsing.StringIsText | chromecast/json.cc:58-111 | a string is read exactly if it is a string of the grammar, as the bytes it denotes |
| JsonParsing.ValueSound | chromecast/json.cc:140-215 | a value that is read is a value of the grammar at that depth |
| JsonParsing.ValueComplete | chromecast/json.cc:140-215 | every value of the grammar that ends where a value may end is read as what it denotes |
| JsonParsing.ElementsComplete | chromecast/json.cc:180-191 | every list of elements of the grammar is read in full |
| JsonParsing.MembersComplete | chromecast/json.cc:153-170 | every list of members of the grammar is read in full, keys beside values |
| JsonParsing.ParsesExactly | chromecast/json.cc:219-226 | the parser returns a tree exactly if the whole text is a JSON text of RFC 8259 that denotes it, with values no deeper than 32, finite numbers and no lone surrogates |
| JsonParsing.ParsedIsNested | chromecast/json.cc:219-226 | every object of the result has as many keys as values, and nothing nests deeper than the limit |
| JsonReader.Parser.Space | chromecast/json.cc:15-19 | moves past all whitespace and no further |
| JsonReader.Parser.Literal | chromecast/json.cc:21-25 | consumes a word exactly if it is there |
| JsonReader.Parser.Hex4 | chromecast/json.cc:44-56 | reads exactly four hexadecimal digits as their number |
| JsonReader.Parser.String | chromecast/json.cc:58-111 | the loop over characters and escapes reads what the position functions say |
| JsonReader.Parser.Escape | chromecast/json.cc:70-105 | one escape, surrogate pairs included |
| JsonReader.Parser.Number | chromecast/json.cc:113-138 | the scan accepts exactly the number tokens that a double can hold |
| JsonReader.Parser.Value | chromecast/json.cc:140-215 | the recursive descent reads what the position functions say and ends |
| JsonReader.Parser.Elements | chromecast/json.cc:180-191 | the loop over array items |
| JsonReader.Parser.Members | chromecast/json.cc:153-170 | the loop over object members |
| JsonReader.Parse | chromecast/json.cc:219-226 | the parser with its state accepts exactly the texts of the grammar and returns what they denote |
| JsonTexts.EscapedPair | chromecast/json.cc:92-105 | two escapes that spell, in either case, the UTF-16 units of a code point beyond the first plane are read as that code point |
| JsonTexts.EscapedUnit | chromecast/json.cc:92-105 | an escape that spells a code point of the first plane is read as that code point |
| JsonTexts.LoneSurrogate | chromecast/json.cc:95-102 | half a pair alone is refused |
| JsonTexts.WrongPair | chromecast/json.cc:95-102 | two escaped units of which the first is half a pair, but which are no pair in this order, are refused |
| JsonTexts.ShortEscape | chromecast/json.cc:71-107 | behind a backslash, quotation mark, backslash and slash stand for themselves, b, f, n, r and t for the controls 8, 12, 10, 13 and 9; alone, nothing else is read |
| JsonTexts.PlainCharacter | chromecast/json.cc:63-69 | any other character from 32 on, but for the quotation mark, stands for itself, and a control is refused |
| JsonTexts.EncodingKeepsOrder | chromecast/json.cc:27-42 | the bytes of code points are in the order of the code points, which with the shortest forms leaves no other encoding |
| JsonTexts.KnownEncodings | chromecast/json.cc:27-42 | the bytes of A, of é, of the euro sign and of U+1F600 |
| JsonTexts.NumberReads | chromecast/json.cc:113-138 | a number in its parts is accepted exactly if its exact decimal value is below 2^1024 - 2^970, and keeps its digits |
| JsonTexts.FiniteExactly | chromecast/json.cc:134-137 | the test of a token is that comparison, in exact arithmetic |
| JsonTexts.LeadingZero | chromecast/json.cc:116-118 | a digit behind a leading zero is refused |
| JsonTexts.NothingBehind | chromecast/json.cc:125-133 | digits that end with a point, or with the mark of an exponent, are no number |
| JsonTexts.NoNumberStart | chromecast/json.cc:113-124 | a text that starts no string, array, object, word or blank is a number only if it starts with a minus or a digit |
| JsonTexts.NestedThirtyThree | chromecast/json.cc:140-143 | arrays within arrays are accepted up to 33 of them, and no more |
| JsonTexts.HexValueIs | chromecast/json.cc:47-54 | the digit a character stands for, in either case |
| JsonTexts.SpaceIs | chromecast/json.cc:15-19 | blank are the characters 9, 10, 13 and 32 |
| JsonTexts.SimpleIs | chromecast/json.cc:71-91 | the character behind a backslash and the one that it stands for |
| JsonTexts.WordsRead | chromecast/json.cc:200-209 | the words true, false and null are read as themselves |
| JsonReader.First | chromecast/json.cc:228-240 | the first member with the key is found, or there is none |
| JsonWriter.Quote | chromecast/json.cc:259-290 | prints a string that the parser reads back as the same bytes |
| JsonWriter.QuoteReadsBack | chromecast/json.cc:259-290 | for every string of bytes, parsing its quoted form gives the string |
| JsonWriter.CharReads | chromecast/json.cc:259-290 | each printed character or escape is read back as itself |
| SavedDevices.QuotedCharIs | chromecast/json.cc:259-290 | the printed form of every byte: escaped quotation marks, backslashes and controls, in lower case, or the byte itself |
| SavedDevices.QuotedIs | chromecast/json.cc:259-290 | a printed string is its characters, each printed, between quotation marks |
| Remembered.Remember | chromecast/session.cc:156-172 | the first entry of the same hardware is replaced, keeping its home network when the device tells none or the hotspot's; a new device is appended without its key; one without MAC address and UDN is ignored |
| Remembered.RememberingUpdates | chromecast/session.cc:156-172 | field by field: everything is taken from the answer, but network name and address are kept where it tells none, or one on the hotspot's subnet |
| Remembered.RememberingAdds | chromecast/session.cc:156-164 | what is new is appended without its key, and what has neither a MAC address nor a UDN is not remembered |
| Remembered.RememberedInTurn | chromecast/session.cc:264 | devices are remembered one after the other, in order |
| Remembered.RememberedRetains | chromecast/session.cc:156-172 | over any run, every entry keeps a MAC address or a UDN and no key, no place of the list goes, and a home network known at a place stays known there and is never the hotspot's |
| Remembered.RememberingRetains | chromecast/session.cc:160-172 | every place of the list keeps its entry, or what the same hardware says now |
| Remembered.IsRemembered | chromecast/session.cc:160-172 | afterwards the list has an entry for the device |
| Remembered.OnceExactly | chromecast/session.cc:160-172 | a list without repetition stays one exactly if no two of its entries are the device remembered |
| Remembered.ListedTwice | chromecast/session.cc:160-172 | three answers, by MAC address, by UDN and by both, after which a device is listed twice |
| Remembered.AddressesSuffice | chromecast/session.cc:160-172 | where every device tells its MAC address, none is ever listed twice, and every place of the list keeps its MAC address |
| Remembered.MemorySurvives | chromecast/session.cc:120-153 | what a session has remembered is loaded back from its file on all saved fields, in order |
| KnownDevices.WriteRow | chromecast/session.cc:124-127 | one device as an object with its seven keys in place |
| KnownDevices.EncodeKnown | chromecast/session.cc:120-130 | writes a JSON array that is loaded back as every device with a MAC address or a UDN |
| KnownDevices.DecodeKnown | chromecast/session.cc:132-148 | any text gives the rows that have a MAC address or a UDN, fields that are missing or no strings being empty |
| KnownDevices.EncodedParses | chromecast/session.cc:120-130 | the written text is the JSON array of the devices' objects |
| KnownDevices.TreeIsRow | chromecast/session.cc:136-144 | looking up the seven keys gives back the device |
| KnownDevices.SavedIsRestored | chromecast/session.cc:120-148 | saving and loading, through the object and array parser, keeps all seven fields of every device with a MAC address or a UDN, in order |
| KnownDevices.LoadedIsStable | chromecast/session.cc:120-148 | what was loaded from any text is saved and loaded again unchanged |
| SavedDevices.RowText | chromecast/session.cc:120-130 | the text of one device: the seven fields under their names, in their order |
| SavedDevices.ListText | chromecast/session.cc:120-130 | the rows in order, with commas between them, in brackets |
| SavedDevices.TextIs | chromecast/session.cc:132-148 | the text under a name is that of the first member so named if it is a string, and nothing otherwise |
| TextSearch.FindGrows | chromecast/http.cc:173-177 | what was found stays found in the same place when more arrives |
| ResponseHeads.ParseLength | chromecast/http.cc:195-200 | reads a decimal length, or refuses one with another character or past the limit |
| ResponseHeads.ParseStatus | chromecast/http.cc:178-187 | the status is the three digits behind the first space of a line that starts with HTTP/ |
| ResponseHeads.ParseFields | chromecast/http.cc:188-205 | the loop over header lines |
| ResponseHeads.ParseHead | chromecast/http.cc:173-206 | succeeds exactly on a whole, well-formed head; an incomplete one leaves the caller's head untouched; a fresh head is filled in |
| ResponseHeads.HeadGrows | chromecast/http.cc:173-206 | the verdict on a head whose end has arrived is final |
| ResponseHeads.FailureIsFixed | chromecast/http.cc:173-206 | what an earlier attempt left in the head cannot turn failure into success |
| ResponseHeads.PrintedHeadReads | chromecast/http.cc:173-206 | a printed head is read as its status and its headers in order: the last content length counts, one chunked coding is enough, names and values compare trimmed and without case |
| Responses.SameTextIs | chromecast/http.cc:150-157 | names are compared letter by letter, in either case |
| Responses.TrimIs | chromecast/http.cc:159-164 | trimming takes spaces and tabs in front, and those and carriage returns behind, and no more |
| Responses.LengthHeader | chromecast/http.cc:195-200 | a length header, in any case and padding, says the number that its digits spell if it is below 10,737,418,250, and spoils the head otherwise |
| Responses.OtherHeader | chromecast/http.cc:201-203 | any other header matters only if it names the chunked coding, in any case and padding |
| Responses.HeadersMean | chromecast/http.cc:188-206 | the head is accepted exactly if every length is; the last length counts, and one chunked coding is enough |
| Responses.StatusExactly | chromecast/http.cc:180-187 | the status is spelled by the three digits behind the first space of a line of at least twelve characters that starts HTTP/ |
| Chunking.ReadSize | chromecast/http.cc:214-231 | reads one to seven hexadecimal digits, refusing none or more |
| Chunking.DecodeChunks | chromecast/http.cc:208-238 | the loop says complete, malformed or not yet, with the decoded body |
| Chunking.DecodeGrows | chromecast/http.cc:208-238 | complete and malformed are final when more bytes arrive |
| Chunking.DecodesEncoded | chromecast/http.cc:208-238 | every chunked encoding of a body (up to seven digits a size, extensions, any two closing bytes) decodes to that body, whatever trailers follow |
| Chunking.DecodedIsEncoded | chromecast/http.cc:208-238 | whatever decodes was such an encoding of the body it gives |
| Responses.SizeGrows | chromecast/http.cc:216-227 | a size counts its digits by sixteens, in either case |
| Responses.SizeExactly | chromecast/http.cc:214-231 | the line of a chunk starts with one to seven digits, and what follows them is ignored |
| Responses.MalformedExactly | chromecast/http.cc:211-237 | a body is malformed exactly if whole chunks are followed by a line without a size, or with one of more than seven digits |
| Receiving.Receive | chromecast/http.cc:300-329 | the loop that parses the head once and the body on every growing prefix gives what judging each prefix afresh gives |
| Receiving.VerdictStands | chromecast/http.cc:305-318 | a verdict on the first bytes stands, unless a 204 or 304 announces and sends a body |
| Receiving.EveryDeliveryAgrees | chromecast/http.cc:300-329 | for any stream within the limit that is not such a response, every way of splitting it gives what it gives in one piece |
| Responses.ReceivedMeans | chromecast/http.cc:300-329 | reads are taken until the answer is known, there are more than 524,288 bytes, or the connection ends; then the outcome is that answer, too large, incomplete after a failure, closed early, or the body that ends with the connection |
| Responses.AnsweredIs | chromecast/http.cc:305-317 | an answer is known exactly if a chunked body is whole or malformed, the announced length is there, or the status is 204 or 304 |
| Receiving.HastyAnswer | chromecast/http.cc:313-317 | a 204 or 304 with a body is answered with it if the read that completes the head completes the body, and without it otherwise |
| Receiving.SplitMatters | chromecast/http.cc:313-317 | for a body shorter than the buffer two deliveries of such a response give different answers |
| Receiving.SplitFreeExactly | chromecast/http.cc:300-329 | within the limit, the result is independent of the splitting exactly if the response is not a 204 or 304, unchunked, with a non-empty body that is announced, sent and shorter than the 4,096-byte buffer |
| Receiving.HastyExists | chromecast/http.cc:313-317 | there is such a response, a 204 that announces and sends one byte, and its result does depend on the splitting |
| Receiving.ResponseArrives | chromecast/http.cc:300-329 | a well-formed response framed by length, by chunks or by the end of the stream is received with its status and body, however it is split |
| Discovery.SkipName | chromecast/discovery.cc:30-40 | ends behind a name exactly if it is a name of at most 127 labels, plain or ending in a pointer, within the packet |
| Discovery.NameEndExact | chromecast/discovery.cc:30-40 | the label loop accepts exactly the names of RFC 1035, section 4.1.4, within its limit |
| Discovery.AddAddress | chromecast/discovery.cc:25-28 | appends an address that is new and not zero, else nothing |
| Discovery.AddsEachOnce | chromecast/discovery.cc:25-28 | the old list stays in front, every named address but zero is added once, and nothing else |
| Discovery.AddsInOrder | chromecast/discovery.cc:25-28 | addresses are added in the order in which records first name them |
| Discovery.CollectAddresses | chromecast/discovery.cc:44-67 | on any bytes, reads within the packet, ends, and adds the addresses of the whole records before the first malformed one; on a well-formed response those of all its records |
| Discovery.ResponseContributes | chromecast/discovery.cc:44-67 | a well-formed response contributes exactly its records of all three sections |
| Discovery.CollectsAddresses | chromecast/discovery.cc:44-67 | from a well-formed response the list gains exactly the non-zero IPv4 addresses, each once, in order of first mention |
| Packets.MessageReads | chromecast/discovery.cc:44-67 | a message written byte by byte, big-endian, with any names of at most 127 labels, contributes all its records if it is a response and nothing otherwise |
| Packets.CutMessageReads | chromecast/discovery.cc:44-67 | a response that breaks off within a record contributes the records in front of it |
| Packets.NoName | chromecast/discovery.cc:30-40 | 128 labels, or a length from 64 to 191, make a name unreadable |
| Packets.NamedIs | chromecast/discovery.cc:62-64 | only four bytes under type 1 are an address, the first byte counting most |
| Pacing.VsyncAfter | native_buttons/runtime.cc:225-230 | the least vsync of the grid that is no earlier than the time, on both sides of the origin |
| Pacing.OnTimeSlots | native_buttons/runtime.cc:203-205 | when a period is a whole number of refreshes longer than the slack, the next slot is exactly that far away |
| Pacing.Wanted | native_buttons/runtime.cc:284-286 | the smallest interval whose budget fits the cost, or the slowest |
| Pacing.ObservedIsKept | native_buttons/runtime.cc:251-281 | the first half of a frame keeps measurement, floor, lead and counters in bounds |
| Pacing.PacedIsKept | native_buttons/runtime.cc:251-310 | every frame keeps 1 <= floor <= interval <= 8, the lead at least 2 ms, the hold within 1 to 32 s and the counters below their limits |
| Pacing.FreshIsKept | native_buttons/runtime.cc:239-249 | a reset establishes the same bounds |
| Pacing.RunIsKept | native_buttons/runtime.cc:203-310 | over every run of frames, resets and display changes these bounds hold |
| Pacing.FrameIsMeasured | native_buttons/runtime.cc:265-272 | each frame of a measurement is counted unless it restarts |
| Pacing.MeasurementEnds | native_buttons/runtime.cc:265-272 | over any frames and display changes, a measurement that is not restarted ends after at most 61 frames from its start |
| Pacing.OnlyMissesRaise | native_buttons/runtime.cc:258-279 | the floor rises only when at least four misses with a full lead have gathered, and then to one above the rate |
| Pacing.RaisedFloorIsHeld | native_buttons/runtime.cc:274-303 | a floor raised from a rate above the slowest slows the rate and is held for the new hold |
| Pacing.HeldFloorStays | native_buttons/runtime.cc:280-281 | over any frames and display changes before its hold has passed, without enough misses or a reset, the floor stays |
| Pacing.RaisedFloorLasts | native_buttons/runtime.cc:274-303 | a floor raised by misses lasts through the new hold, over all frames and display changes without further misses, exactly if the interval was below the slowest or the hold already running ends no earlier than one of the present length from this frame |
| Pacing.SlowestFloorIsNotHeld | native_buttons/runtime.cc:274-281 | misses at the slowest interval leave the hold as it was, and once that has passed the floor drops in the same frame |
| Pacing.FloorDrops | native_buttons/runtime.cc:274-281 | where the condition fails, there is a calm run within the new hold that lowers the floor |
| Pacing.FloorNeedNotLast | native_buttons/runtime.cc:251-310 | a run from a fresh pacer to a frame at which the raised floor does not last |
| FramePacer.Pacer.ChangeInterval | native_buttons/runtime.cc:232-236 | a new interval restarts the window and is not judged for some frames |
| FramePacer.Pacer.ResetPacing | native_buttons/runtime.cc:238-249 | back to the peak rate with a measurement pending |
| FramePacer.Pacer.AdjustLead | native_buttons/runtime.cc:252-263 | lateness first buys lead, up to a refresh, and only then counts |
| FramePacer.Pacer.MeasureCost | native_buttons/runtime.cc:264-273 | a measurement lasts while the cost still falls, up to its limit, and then sets the best cost |
| FramePacer.Pacer.AdjustFloor | native_buttons/runtime.cc:274-281 | misses raise the floor; a window without enough forgets them; a passed hold lowers it |
| FramePacer.Pacer.ChooseInterval | native_buttons/runtime.cc:282-287 | the interval that cost and floor ask for |
| FramePacer.Pacer.MoveTo | native_buttons/runtime.cc:295-309 | slowing down soon after speeding up doubles the hold; a measurement cut short starts over |
| FramePacer.Pacer.Pace | native_buttons/runtime.cc:251-310 | one frame's update in place keeps its bounds and is told by costs, periods and counts alone: with no measurement running and no retry, the new interval is the greater of the floor and the least of 1 to 8 whose period holds the best cost with a fifth more, 8 if none does; the best cost is the one that ended the measurement, then the least since; a measurement changes the interval only by the floor; a retry goes one faster exactly under its conditions |
| FrameRules.FrameMeans | native_buttons/runtime.cc:251-310 | the rate function is that rule, for every rate and frame |
| FrameRules.CostChooses | native_buttons/runtime.cc:270-287 | with no measurement running and no retry, the least cost seen chooses the interval |
| FrameRules.MeasuredCostChooses | native_buttons/runtime.cc:265-287 | the frame that ends a measurement chooses by its own cost |
| FrameRules.MeasurementHoldsStill | native_buttons/runtime.cc:282-287 | while a measurement runs the interval only follows the floor |
| FrameRules.PeriodOf | native_buttons/runtime.cc:201-205 | the period of an interval, from the three periods of the display |
| FrameRules.FreshMeans | native_buttons/runtime.cc:232-249 | what a reset leaves, field by field |
| FrameRules.SettledMeans | native_buttons/runtime.cc:464-468 | a change of the display suspends judgement for eight frames, or longer |
| FramePacer.Pacer.ArmFrame | native_buttons/runtime.cc:316-326 | a frame without a slot gets the first vsync it can reach, and starts just early enough |
| FramePacer.Pacer.OnVsync | native_buttons/runtime.cc:453-473 | a refresh period that changed by more than the slack drops the slot and suspends judgement; jitter changes neither; the fastest period is only ever replaced by a clearly shorter one |
| FramePacer.Pacer.OnFrameTimer | native_buttons/runtime.cc:484-518 | the frame takes the first slot on its grid that can still be reached; the next slot is the first vsync a period later, exactly the interval's number of refreshes when the period is that |
| Barriers.FrameSinceStays | native_buttons/runtime.cc:165-175 | what was drawn since a redraw stays drawn |
| Barriers.HonestGrows | native_buttons/runtime.cc:165-175 | an acknowledgment that is justified when made stays justified |
| Barriers.Runtime.Enqueue | native_buttons/runtime.cc:742-749 | the command gets the next number and the last place |
| Barriers.Runtime.PublishState | native_buttons/runtime.cc:165-175 | a redraw is acknowledged exactly if the window is drawn, there is no scene or there is an error, and none that could be is held back |
| Barriers.Runtime.Draw | native_buttons/runtime.cc:421-438 | with a scene and no error a frame is tried and recorded, waited for if asked or if a redraw is due; the window stays due exactly if rendering failed, nothing was drawn, or the wait failed |
| Barriers.Runtime.DrawAndRecord | native_buttons/runtime.cc:440-442 | the first failure becomes the error, and the window stays due |
| Barriers.Runtime.ReleaseSurface | native_buttons/runtime.cc:560-569 | without a surface there is no scene and nothing is due |
| Barriers.Runtime.CreateSurface | native_buttons/runtime.cc:571-584 | there is a scene exactly if renderer and scene could be made, and then a frame was tried, waited for where a redraw is due |
| Barriers.Runtime.Take | native_buttons/runtime.cc:588-592 | everything queued becomes the batch at once, in order, unless one is under way or the worker stops |
| Barriers.Runtime.StartRedraw | native_buttons/runtime.cc:602-605 | a redraw begins, is drawn and waited for |
| Barriers.Runtime.Apply | native_buttons/runtime.cc:594-673 | what each other command leaves of scene, error, visibility, resumption, pause and due window, and that none fakes a drawn redraw |
| Barriers.Runtime.Execute | native_buttons/runtime.cc:593-678 | the oldest command runs, leaves what its kind says, and is completed; a redraw drawn at once, or without a scene, is acknowledged at once |
| Barriers.Runtime.Finish | native_buttons/runtime.cc:679-682 | after the last command of a batch a due window at rest is drawn, and the result is published; nothing else changes |
| Barriers.Runtime.OnFrame | native_buttons/runtime.cc:453-482 | a vsync draws exactly if the window can be drawn and is due, or animates without a timer |
| Barriers.Runtime.OnFrameTimer | native_buttons/runtime.cc:484-518 | a timed frame draws exactly while animating with a slot, and acknowledges a redraw only after waiting for it |
| Barriers.Runtime.CheckSurface | native_buttons/runtime.cc:532-552 | a resized or due window is drawn again, and a failed check is published as the error, without drawing |
| Barriers.Runtime.FailToStart | native_buttons/runtime.cc:701-709 | a looper that cannot be made stops the worker with an error before it takes any command |
| Barriers.Runtime.Run | native_buttons/runtime.cc:686-740 | over every interleaving of commands, frames and checks, commands run in the order of issue, the completed number says that all up to it ran, every acknowledged redraw had a frame drawn, and waited for, since it began, no scene or an error, and every redraw that ran is acknowledged unless its window is still due and can be drawn |
| Barriers.Runtime.Synchronize | native_buttons/runtime.cc:751-787 | success or a reported error means the worker exited or the command ran, with all before it, and for a redraw, even one overtaken by a later one, that there was no scene, an error or a frame drawn and waited for since it began; a timeout means that the wait expired while the command had not run, or its redraw was not acknowledged, and queues an error for the worker, except for releases, which abort |
| Barriers.Runtime.Done | native_buttons/runtime.cc:759-786 | what is no longer pending while the worker lives has run in its turn and, for a redraw, been answered by an acknowledgment with a frame since it began, no scene or an error |
| Barriers.OvertakenIsHonored | native_buttons/runtime.cc:602-678 | the acknowledgment of a later redraw also honours every redraw that ran before it |

## Left out

Sudoku:

- The tables of units and peers are closed formulas for the same cells in the same ascending order.
- The pseudo-random generator: every random choice is arbitrary within its bound, so the results hold for all seeds. How often generation succeeds, and its thread, are not modelled; polling the cancel flag is a bound on the number of attempts.
- Rater.Rate: which of several steps of the same level comes first is not promised; the loops look in the order of the code.
- The chain length limit of 12 is a parameter; the results hold for every limit.
- Rounding of play time: a double is its eight bytes, and a sum is any double, or infinity, that is below neither of its parts.
- The view of the board for drawing, the application around the game and file storage: a saved file is a byte string.

Chromecast:

- Sockets, TLS, the RSA encryption of the password, sending mDNS queries and sweeping a subnet: their results are arbitrary answers.
- Clocks: a polling loop with a deadline runs an arbitrary number of rounds, and a pause may always be interrupted.
- Texts of messages and the names asked for in Wi-Fi requests do not affect what a session may claim.
- The addresses tried on a network that is not a hotspot, those of remembered devices among them, are arbitrary, and so are the reads of the address text; writing the file of remembered devices may fail unnoticed.
- Reading a device's information out of its JSON, following more than one key into an object, and merging and sorting scan results.
- Rounding of numbers: a JSON number keeps its digits, and whether a double can hold it is decided on its exact value.
- JSON strings are not checked to be UTF-8, as in the parser; characters of a text stand for bytes.
- Receiving.SplitFreeExactly: streams beyond 512 KiB are left out, because whether the limit or the response comes first depends on the splitting.
- The content of failed HTTP results beyond their kind.
- 32-bit and 64-bit widths where the code's own limits keep values far below them: chunk sizes, body lengths, record counts.

Render thread:

- Rendering, touch geometry, zoom, the counter and its storage: input commands are modelled only by the redraws they ask for and whether they pause.
- Costs are real numbers; averaging them is left out, so each frame's cost is an arbitrary input.
- Refresh periods that the system reports are not negative.
- The clock of the lifecycle deadline: whether a wait expires is arbitrary, and when nothing more happens it does.
- Sequence numbers do not wrap around.
- Aborting the process after a deadline is an outcome; what follows it is not modelled.

Elsewhere: the GPU benchmark, the shared GPU code, shaders, views and main programs.
