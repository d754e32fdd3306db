# Portfolio games and gallery: a Dafny model

The site behind this model is a personal portfolio. Almost all of it is
layout. Four components carry real logic, and they are modelled here:

- **Tic-tac-toe**: the player (X) against a greedy computer (O) that looks
  one move ahead.
- **Shell game**: a ball under one of three cups, five swaps, one guess.
- **Coin flip**: a streak of correct calls and the best streak reached.
- **Photo gallery**: a Fisher–Yates shuffle, a category filter, and a viewer
  that steps through the filtered pictures.

Each game keeps a local leaderboard of at most five `{name, score}` rows.
Two update rules exist side by side:

- Tic-tac-toe and the shell game count wins. A known name gets one more win
  and a new name starts at one.
- The coin flip keeps each name's best streak.

Both rules then sort the list by score, highest first, with a stable sort,
and keep the first five rows.

The model is functional. Every component state is an immutable datatype,
and every handler or timer callback is a pure step function on it.

- **Randomness is a parameter.** `Math.floor(Math.random() * n)` becomes
  index `rnd % n` of the candidate list. The shell game's draws are slots.
  Fisher–Yates takes one draw `draws[i] <= i` per step. The coin's outcome
  is an argument of the landing step.
- **Timers and effects are atomic steps.** The tic-tac-toe result effect
  (`Settle`) runs right after each board change. Because it records a
  winner before the computer's timer could fire, that timer is cleared, as
  the effect's cleanup does.
- **The coin's landing timer is a closure.** It sees the streak and best
  streak of the moment the coin was tossed. These are kept in a `Pending`
  record, so a reset pressed while the coin is in the air does not stick.
- **Storage is a map** from key to a list of rows. Only the leaderboard keys
  are modelled. The coin's stored best streak is the `saved` field.

Modules, one file each:

| file | module | contents |
|---|---|---|
| `wrappers.dfy` | `Wrappers` | `Option` |
| `text.dfy` | `Text` | JavaScript `String.prototype.trim` |
| `leaderboard.dfy` | `Leaderboard` | rows, stable sort, both save rules, name submission |
| `tictactoe.dfy` | `TicTacToe` | winner detection, the computer's move, the game session |
| `shellgame.dfy` | `ShellGame` | cup permutations, shuffling, guessing |
| `coinflip.dfy` | `CoinFlip` | flip, landing, streak bookkeeping |
| `gallery.dfy` | `Gallery` | shuffle, filter, navigation, keys |

Three facts about the code decide details of the model:

- Only the coin flip keeps each name's best score. Tic-tac-toe and the
  shell game add one win per save (`Leaderboard.SaveWin`).
- `JSON.parse` is called without a `try`, so malformed stored data throws.
  The model reads an absent key as empty and does not model parsing.
- Only the coin flip checks the score before saving (`lastStreak > 0`).
  The win-counting games save any non-blank name.

## Model

| member | source | states |
|---|---|---|
| Text.Leading | src/components/games/TicTacToe.tsx:130-131 | counts the white space a typed name starts with: every character before the count is white space, the one at the count is not |
| Text.Trailing | src/components/games/TicTacToe.tsx:130-131 | counts the white space a typed name ends with, symmetrically |
| Text.Trim | src/components/games/TicTacToe.tsx:130-131 | `trim()` gives the slice of the input after its leading white space, with only white space after it; the slice neither starts nor ends with white space; it is empty exactly when the input is all white space |
| Leaderboard.Load | src/components/games/TicTacToe.tsx:15-18 | an absent key reads as an empty list; a present one as what is stored |
| Leaderboard.FindName | src/components/games/TicTacToe.tsx:22 | `find` by name: absent exactly when no row has the name, otherwise the first row that has it |
| Leaderboard.Take | src/components/games/TicTacToe.tsx:29 | `slice(0, n)` is the prefix of exactly `n` rows of a longer list, and the whole list when it is short |
| Leaderboard.SortDesc | src/components/games/TicTacToe.tsx:28 | the sort keeps the length and the rows (as a multiset) and orders them by score, highest first |
| Leaderboard.InsertShape | src/components/games/TicTacToe.tsx:28 | one insertion step puts the new row at its insertion point and leaves the other rows in order around it |
| Leaderboard.InsertMultiset | src/components/games/TicTacToe.tsx:28 | an insertion step adds exactly the one new row |
| Leaderboard.InsertSorted | src/components/games/TicTacToe.tsx:28 | inserting into a list sorted highest first keeps it sorted |
| Leaderboard.InsertStable | src/components/games/TicTacToe.tsx:28 | the inserted row joins the end of the rows with its score, behind rows that came earlier |
| Leaderboard.SortStable | src/components/games/TicTacToe.tsx:28 | the sort is stable: for every score, the rows with that score appear in their input order |
| Leaderboard.InsertLowest | src/components/games/TicTacToe.tsx:28 | a row scoring no more than every row already there goes last |
| Leaderboard.SortSorted | src/components/games/TicTacToe.tsx:28 | sorting an already sorted list changes nothing |
| Leaderboard.InsertNames | src/components/games/TicTacToe.tsx:28 | inserting a row with a new name keeps the names unique |
| Leaderboard.SortNames | src/components/games/TicTacToe.tsx:28 | sorting keeps names unique |
| Leaderboard.Finish | src/components/games/TicTacToe.tsx:28-29 | sort then cut gives the first rows of the sorted list: five of them when there were more, all of them otherwise |
| Leaderboard.FinishMembers | src/components/games/TicTacToe.tsx:28-29 | sort then cut adds no row that was not there |
| Leaderboard.FinishNames | src/components/games/TicTacToe.tsx:28-29 | sort then cut keeps names unique |
| Leaderboard.SaveWin | src/components/games/TicTacToe.tsx:20-30 | a win save leaves at most five rows, sorted, each either stored before or carrying the saved name; a known name on a board of at most five is still there afterwards |
| Leaderboard.SaveWinKeepsBoard | src/components/games/ShellGame.tsx:11-21 | a board with at most five rows, sorted, unique names and at least one win per row stays so after any win save |
| Leaderboard.SaveWinNames | src/components/games/ShellGame.tsx:11-21 | names unique before a win save stay unique after it |
| Leaderboard.AddWinNames | src/components/games/ShellGame.tsx:13-18 | the +1-or-append update keeps one row per name |
| Leaderboard.AddWinScores | src/components/games/ShellGame.tsx:13-18 | the +1-or-append update leaves every row with at least one win |
| Leaderboard.SaveWinKnown | src/components/games/ShellGame.tsx:13-20 | a stored name gets exactly one more win, every other row stays, and nothing is dropped |
| Leaderboard.SaveWinNewcomer | src/components/games/ShellGame.tsx:16-20 | on a board with room, a new name joins with one win and nothing else changes |
| Leaderboard.SaveWinFullBoard | src/components/games/ShellGame.tsx:16-20 | on a full board, a new name's single win never gets in: the board is unchanged |
| Leaderboard.SaveStreak | src/components/games/CoinFlip.tsx:13-25 | a streak save leaves at most five rows, sorted, each either stored before or the saved name with its streak |
| Leaderboard.SaveStreakKeepsBoard | src/components/games/CoinFlip.tsx:13-25 | a board with at most five rows, sorted, with unique names stays so after any streak save |
| Leaderboard.SaveStreakNames | src/components/games/CoinFlip.tsx:13-25 | names unique before a streak save stay unique after it |
| Leaderboard.AddStreakNames | src/components/games/CoinFlip.tsx:15-22 | the keep-the-larger-or-append update keeps one row per name |
| Leaderboard.SaveStreakKnown | src/components/games/CoinFlip.tsx:15-19 | a stored name keeps the larger of its stored and its new streak; every other row stays and nothing is dropped |
| Leaderboard.SaveStreakNewcomer | src/components/games/CoinFlip.tsx:20-24 | on a board with room, a new name joins with its streak and nothing else changes |
| Leaderboard.StreakNewcomerInserted | src/components/games/CoinFlip.tsx:20-24 | on a sorted board, saving a new name is inserting its row after its ties and keeping the first five |
| Leaderboard.SaveStreakFullBoard | src/components/games/CoinFlip.tsx:21-24 | on a full board, a new name gets in exactly when its streak beats the fifth row outright; otherwise the board is unchanged |
| Leaderboard.SaveStreakLowest | src/components/games/CoinFlip.tsx:21-24 | on a sorted board with room, a new name with the lowest streak is appended last |
| Leaderboard.StreakScenarioLowerIgnored | src/components/games/CoinFlip.tsx:16-19 | saving 5 then 3 for one name keeps the single row with 5 |
| Leaderboard.FillStep | src/components/games/CoinFlip.tsx:20-24 | on a sorted board with room, a new name scoring no more than any stored row is appended |
| Leaderboard.SaveFirstAppends | src/components/games/CoinFlip.tsx:20-24 | on a sorted board of distinct names, saving row `k` onto the rows before it gives the rows up to `k` |
| Leaderboard.SaveAllAppends | src/components/games/CoinFlip.tsx:13-25 | saving the rows of a sorted board of at most five distinct names one by one, from any prefix of it, rebuilds the board |
| Leaderboard.StreakScenarioFill | src/components/games/CoinFlip.tsx:13-25 | five names saved with streaks 10, 9, 8, 7, 6 on an empty board fill it in that order |
| Leaderboard.StreakScenarioCut | src/components/games/CoinFlip.tsx:21-24 | a sixth name with streak 5 does not enter a board holding 10, 9, 8, 7, 6 |
| Leaderboard.SubmitWin | src/components/games/TicTacToe.tsx:129-135 | a blank name leaves storage unchanged; any other name is trimmed and saved under the game's key |
| Leaderboard.SubmitStreak | src/components/games/CoinFlip.tsx:70-77 | storage changes only for a non-blank name and a positive streak, which is then saved under the coin-flip key |
| TicTacToe.FirstLine | src/components/games/TicTacToe.tsx:43-48 | the scan over the lines finds a mark only when some line from there on holds three of it, and finds none when no line does |
| TicTacToe.Winner | src/components/games/TicTacToe.tsx:42-51 | a mark wins exactly when it fills some line, even on a full board; a draw is a full board without a line; anything else is still in progress |
| TicTacToe.EmptyFrom | src/components/games/TicTacToe.tsx:54-56 | the empty cells from a position on, in increasing order |
| TicTacToe.AvailableMoves | src/components/games/TicTacToe.tsx:54-56 | exactly the empty cells, lowest first; none exactly when the board is full |
| TicTacToe.FirstCompleting | src/components/games/TicTacToe.tsx:59-63 | the scan returns a candidate that completes a line for the mark, the first one in increasing order, and nothing when none does |
| TicTacToe.Keep | src/components/games/TicTacToe.tsx:76 | the corners that are still free |
| TicTacToe.AiMove | src/components/games/TicTacToe.tsx:53-83 | the computer finds a move exactly when the board is not full, and the move is an empty cell |
| TicTacToe.LeastCompletingUnique | src/components/games/TicTacToe.tsx:59-70 | there is only one lowest completing cell |
| TicTacToe.AiTakesWin | src/components/games/TicTacToe.tsx:58-63 | if O can complete a line, the computer takes the lowest cell that does |
| TicTacToe.AiBlocks | src/components/games/TicTacToe.tsx:65-70 | otherwise, if X could complete a line, the computer blocks the lowest such cell |
| TicTacToe.AiTakesCentre | src/components/games/TicTacToe.tsx:72-73 | with nothing to win or block, a free centre is taken |
| TicTacToe.AiTakesCorner | src/components/games/TicTacToe.tsx:75-79 | failing that, a free corner is taken when there is one |
| TicTacToe.WinOrBlockWinsOn5 | src/components/games/TicTacToe.tsx:58-63 | on X X _ / O O _ / _ _ _, an O on 5 wins |
| TicTacToe.WinOrBlockNotOn2 | src/components/games/TicTacToe.tsx:58-63 | on that board an O on 2 does not win |
| TicTacToe.AiPrefersWinToBlock | src/components/games/TicTacToe.tsx:58-70 | on that board the computer plays 5, its own win, not the block on 2 |
| TicTacToe.Settle | src/components/games/TicTacToe.tsx:110-121 | the result effect records a decided board; an X win adds one player win and raises the prompt, an O win adds one computer win, a draw neither; an undecided board changes nothing |
| TicTacToe.Click | src/components/games/TicTacToe.tsx:85-92 | a click on a taken cell, after the game is decided or out of turn does nothing; otherwise exactly that cell becomes X, the turn passes, and the result effect records a decided board with the matching counter and, for an X win, the prompt; no mark is ever cleared |
| TicTacToe.AiTurn | src/components/games/TicTacToe.tsx:94-108 | the computer acts only on its turn in an undecided game and always hands the turn back; on a board with a free cell it puts O on the cell `getAiMove` picks, and the result effect records a decided board with the matching counter; on a full board it only hands the turn back |
| TicTacToe.Reset | src/components/games/TicTacToe.tsx:123-127 | an empty board, nothing decided, the player to move; counters and prompt untouched |
| TicTacToe.SaveName | src/components/games/TicTacToe.tsx:129-135 | a blank name changes nothing; any other name is trimmed, saved with one more win, and closes the prompt |
| TicTacToe.SkipName | src/components/games/TicTacToe.tsx:221 | the skip button closes the prompt and changes nothing else of the game |
| TicTacToe.EmptyBoardUndecided | src/components/games/TicTacToe.tsx:42-51 | the empty board is still in progress |
| TicTacToe.InitialConsistent | src/components/games/TicTacToe.tsx:33-35 | the mounted game is consistent: winner as read off the board, X level with O |
| TicTacToe.ResetConsistent | src/components/games/TicTacToe.tsx:123-127 | a reset always yields a consistent game |
| TicTacToe.ClickConsistent | src/components/games/TicTacToe.tsx:85-92 | a click keeps the game consistent |
| TicTacToe.AiTurnConsistent | src/components/games/TicTacToe.tsx:94-108 | the computer's move keeps the game consistent |
| TicTacToe.StepConsistent | src/components/games/TicTacToe.tsx:85-135 | every event keeps the recorded winner equal to the board's, X level with O on the player's turn and one ahead on the computer's |
| TicTacToe.RunConsistent | src/components/games/TicTacToe.tsx:85-127 | under any sequence of events the game stays consistent, so X is always level with O or one ahead |
| TicTacToe.MarksPersist | src/components/games/TicTacToe.tsx:88-104 | until a reset, a marked cell keeps its mark |
| TicTacToe.FirstLineMirror | src/components/games/TicTacToe.tsx:43-48 | the line scan treats X and O alike |
| TicTacToe.WinnerMirror | src/components/games/TicTacToe.tsx:42-51 | exchanging X and O exchanges the winner and keeps draws and games in progress |
| ShellGame.PositionOf | src/components/games/ShellGame.tsx:74-75 | `indexOf` finds the one position holding the slot |
| ShellGame.SwapCups | src/components/games/ShellGame.tsx:91-96 | the cups over the two drawn slots exchange places, the third stays, and the result is again a permutation |
| ShellGame.SwapChangesTwo | src/components/games/ShellGame.tsx:91-96 | a swap of two distinct slots moves exactly two cups |
| ShellGame.SecondSlot | src/components/games/ShellGame.tsx:66-70 | the redraw loop yields the first draw that differs from the first slot, and nothing only when every draw equals it |
| ShellGame.Start | src/components/games/ShellGame.tsx:38-44 | the ball is placed on the drawn slot and shown, the cups stand in order, nothing is selected; the counters, the swap count and the name prompt stay |
| ShellGame.BeginShuffle | src/components/games/ShellGame.tsx:47-55 | shuffling starts from the cups in order with no swap made; the selection and the name prompt are kept |
| ShellGame.ShuffleStep | src/components/games/ShellGame.tsx:58-101 | after five swaps a call opens guessing; before that the cups become the given two positions exchanged, a permutation that changes exactly those two, and one swap is counted; the ball, counters, selection and name prompt never change |
| ShellGame.RunShuffle | src/components/games/ShellGame.tsx:58-104 | a chain of shuffle calls never moves the ball or touches the counters, the selection or the name prompt |
| ShellGame.ShuffleCount | src/components/games/ShellGame.tsx:56-63 | from the start of shuffling, the first five calls swap and keep shuffling, and the sixth opens guessing after exactly five swaps |
| ShellGame.ShuffleKeepsCups | src/components/games/ShellGame.tsx:91-96 | whatever the draws, the arrangement stays a rearrangement of the cups |
| ShellGame.SelectCup | src/components/games/ShellGame.tsx:107-123 | a pick outside guessing does nothing; otherwise the round ends, it is a win exactly when the chosen cup stands over the ball, exactly one counter goes up, and a win raises the prompt; cups, ball and swap count are kept |
| ShellGame.RoundOutcome | src/components/games/ShellGame.tsx:38-123 | after a start, the reveal and six shuffle calls the player is guessing, and wins exactly when the chosen cup stands over the ball that was shown |
| ShellGame.Reset | src/components/games/ShellGame.tsx:133-138 | back to the start screen with the cups in order and nothing selected; counters, swap count and name prompt kept |
| ShellGame.SaveName | src/components/games/ShellGame.tsx:125-131 | a blank name changes nothing; any other name is trimmed, saved with one more win, and closes the prompt |
| ShellGame.SkipName | src/components/games/ShellGame.tsx:269-271 | the skip button closes the prompt; phase, ball, cups, selection, swap count and counters are kept |
| ShellGame.OneCupHasBall | src/components/games/ShellGame.tsx:168-170 | exactly one cup stands over the ball |
| ShellGame.BallShownOnlyWhenRevealed | src/components/games/ShellGame.tsx:168-173 | the ball is drawn under some cup exactly while showing or in the result, and under one cup only |
| CoinFlip.Initial | src/components/games/CoinFlip.tsx:32-35 | on mount the best streak is the stored one, or zero when none is stored; no call, no result, the prompt closed and the storage kept |
| CoinFlip.Flip | src/components/games/CoinFlip.tsx:41-47 | a toss while one is in the air does nothing; otherwise the call is recorded, the result cleared, and the streak and best streak of the moment captured; last streak, prompt and storage are kept |
| CoinFlip.Land | src/components/games/CoinFlip.tsx:48-67 | from the captured values, a correct call makes the streak one longer and raises and stores the best streak when beaten; a wrong call zeroes the streak, keeps the best streak and the storage, and offers a captured streak above zero to the prompt; the call stays shown |
| CoinFlip.Reset | src/components/games/CoinFlip.tsx:79-83 | zeroes the streak and clears call and result; the best streak, a toss in the air, the prompt and the storage are untouched |
| CoinFlip.SaveName | src/components/games/CoinFlip.tsx:70-77 | nothing happens for a blank name or a zero finished streak; otherwise the streak is saved under the trimmed name and the prompt closes with the finished streak cleared |
| CoinFlip.SkipName | src/components/games/CoinFlip.tsx:186-190 | skipping closes the prompt and forgets the finished streak; streak, best streak, storage, call, result and a toss in the air are kept |
| CoinFlip.StepValid | src/components/games/CoinFlip.tsx:41-83 | every event keeps the streak within the best streak and never lowers the best streak |
| CoinFlip.RunValid | src/components/games/CoinFlip.tsx:41-83 | over any sequence of events the streak stays within the best streak and the best streak never goes down |
| CoinFlip.InitialValid | src/components/games/CoinFlip.tsx:31-35 | the mounted state satisfies the invariant |
| CoinFlip.ResetDuringFlipUndone | src/components/games/CoinFlip.tsx:53-55 | a reset pressed while the coin is in the air is undone by a correct call, which continues the streak of the toss |
| Gallery.Swap | src/components/sections/GallerySection.tsx:51 | the destructuring swap exchanges two positions and keeps the rest and the multiset |
| Gallery.Shuffle | src/components/sections/GallerySection.tsx:47-54 | Fisher–Yates returns a permutation of its input (same length, same multiset); the last position receives the element of the first draw; all-identity draws leave the order unchanged |
| Gallery.InCategory | src/components/sections/GallerySection.tsx:66 | the filter keeps exactly the pictures of the category, each as often as in the input |
| Gallery.Visible | src/components/sections/GallerySection.tsx:63-66 | "All" shows the whole shuffled list; any other category shows exactly its pictures, each as often as the shuffled list has it |
| Gallery.FilterCounts | src/components/sections/GallerySection.tsx:66 | the filter keeps each picture of the category as often as the input has it, and no other |
| Gallery.InCategoryAppend | src/components/sections/GallerySection.tsx:66 | the filter keeps input order: filtering two lists one after the other filters each and keeps them in that order |
| Gallery.FilterAppend | src/components/sections/GallerySection.tsx:66 | the same, for the filter's recursion |
| Gallery.InCategoryAll | src/components/sections/GallerySection.tsx:66 | a list whose pictures all belong to the category passes unchanged |
| Gallery.FilterAll | src/components/sections/GallerySection.tsx:66 | the same, for the filter's recursion |
| Gallery.VisibleAppend | src/components/sections/GallerySection.tsx:63-66 | the shown list keeps the shuffled order under every filter |
| Gallery.FindId | src/components/sections/GallerySection.tsx:69 | `findIndex` gives the first position with the id, or -1 exactly when none has it |
| Gallery.CurrentIndex | src/components/sections/GallerySection.tsx:68-70 | the selected picture's position in the filtered list, or -1 exactly when nothing is selected or it is not in the list |
| Gallery.Previous | src/components/sections/GallerySection.tsx:72-76 | one picture back when the index is above zero, else no change; the new selection is a picture of the list |
| Gallery.Next | src/components/sections/GallerySection.tsx:78-82 | one picture on when the index is below the last, else no change; the new selection is a picture of the list |
| Gallery.HandleKey | src/components/sections/GallerySection.tsx:84-88 | Escape closes the viewer, the arrows step back and on, other keys do nothing |
| Gallery.NextThenPrevious | src/components/sections/GallerySection.tsx:72-82 | with unique ids, stepping on moves the index by one and stepping back returns to the picture left |
| Gallery.PreviousMovesBack | src/components/sections/GallerySection.tsx:72-76 | with unique ids, stepping back moves the index by exactly one |
| Gallery.ArrowsWithNothingSelected | src/components/sections/GallerySection.tsx:78-82 | with nothing selected (index -1), arrow-right opens the first picture and arrow-left does nothing |

## Left out

- Rendering, CSS classes, and the shell game's translate offsets for the swap animation are presentation only.
- Timer delays and React's scheduling are left out. Each delayed callback is one atomic step.
- The shell game's swap is two timers deep: `shuffle()` picks the two positions and starts the animation, and a nested 300 ms timer swaps the cups (src/components/games/ShellGame.tsx:58-101). One `ShellGame.ShuffleStep` stands for both, so the state between picking and swapping, where only the animation differs, is not modelled.
- A second `startGame` during a running shell shuffle would start a second timer chain with its own counter. That cannot happen from the page: "Play" is rendered only in the ready and result phases (src/components/games/ShellGame.tsx:238-243). The model has one swap counter and does not model overlapping chains.
- The shell game's reset handler is modelled as written. The only button wired to it is rendered `disabled` and only outside the ready and result phases (src/components/games/ShellGame.tsx:245-250), so the page never calls it, and in particular never during a shuffle.
- `localStorage` is a map from key to rows. `JSON.parse`, `JSON.stringify` and the exception on malformed data are I/O and are not modelled.
- The coin's stored best streak is an `Option<nat>`. `parseInt` on arbitrary stored text is not modelled.
- `Math.random` is a parameter, so probabilities are not modelled. This includes the float test `> 0.5` for the coin and the uniform choice of a corner or cell.
- The name field's `maxLength` is an HTML attribute and is not modelled. The model covers trimming and the non-empty check.
- The gallery's picture list and image files are static data. The filter and navigation are modelled for any list.
- The leaderboard dialog, the background animation section, page routing, and the static sections have no logic to model.
- Leaderboard.SortDesc: an insertion sort stands in for `Array.prototype.sort`. The model states only what ECMAScript requires of that sort: the order, the same rows, and stability.
- ShellGame.RunShuffle: its own contract states only what no call changes. The swap count and the phase are stated by `ShellGame.ShuffleCount`, and the permutation by `ShellGame.ShuffleKeepsCups`.
- TicTacToe.AiMove: the fifth tier (any free cell) is stated only as "some empty cell", since the cell is chosen at random.
