/** Tic-tac-toe against the computer.

    The player is X and always moves first; the computer is O and answers
    with a greedy one-move look-ahead: win if it can, else block, else take
    the centre, else a random free corner, else a random free cell. The
    game's outcome is read off the board through the eight fixed lines. */
module TicTacToe {
  import opened Wrappers
  import Leaderboard
  import Text

  datatype Mark = X | O

  /** A cell: empty (`null`) or holding a mark. */
  datatype Cell = Empty | Filled(mark: Mark)

  /** A cell position, row by row. */
  type Index = i: int | 0 <= i < 9

  /** Nine cells, row by row. */
  type Board = b: seq<Cell> | |b| == 9
    witness [Empty, Empty, Empty, Empty, Empty, Empty, Empty, Empty, Empty]

  const EmptyBoard: Board := [Empty, Empty, Empty, Empty, Empty, Empty, Empty, Empty, Empty]

  /** The eight winning lines, in the order they are checked: three rows,
      three columns, two diagonals. */
  const Lines: seq<(Index, Index, Index)> := [
    (0, 1, 2), (3, 4, 5), (6, 7, 8),
    (0, 3, 6), (1, 4, 7), (2, 5, 8),
    (0, 4, 8), (2, 4, 6)
  ]

  const Corners: seq<Index> := [0, 2, 6, 8]
  const Centre: Index := 4

  /** The result of checking a board: `null`, a mark, or `"draw"`. */
  datatype Outcome = InProgress | Won(mark: Mark) | Draw

  // ---------------------------------------------------------------------
  // Reading the outcome off the board
  // ---------------------------------------------------------------------

  /** Line `k` holds three `m` marks. */
  predicate Holds(b: Board, k: int, m: Mark)
    requires 0 <= k < |Lines|
  {
    var (x, y, z) := Lines[k];
    b[x] == Filled(m) && b[y] == Filled(m) && b[z] == Filled(m)
  }

  predicate HasLine(b: Board, m: Mark) {
    exists k :: 0 <= k < |Lines| && Holds(b, k, m)
  }

  predicate Full(b: Board) {
    forall i :: 0 <= i < 9 ==> b[i] != Empty
  }

  /** The mark of the first line, from `k` on, with three equal marks. */
  function FirstLine(b: Board, k: nat): (r: Option<Mark>)
    requires k <= |Lines|
    decreases |Lines| - k
    ensures r.Some? ==> exists j :: k <= j < |Lines| && Holds(b, j, r.value)
    ensures r.None? ==> forall j, m :: k <= j < |Lines| ==> !Holds(b, j, m)
  {
    if k == |Lines| then None
    else
      var (x, y, z) := Lines[k];
      if b[x] != Empty && b[x] == b[y] && b[x] == b[z] then
        assert Holds(b, k, b[x].mark);
        Some(b[x].mark)
      else FirstLine(b, k + 1)
  }

  /** `checkWinner`: a completed line wins, even on a full board; a full
      board without one is a draw; anything else is still in progress. */
  function Winner(b: Board): (r: Outcome)
    ensures r.Won? <==> HasLine(b, X) || HasLine(b, O)
    ensures r.Won? ==> HasLine(b, r.mark)
    ensures r == Draw <==> !HasLine(b, X) && !HasLine(b, O) && Full(b)
    ensures r == InProgress <==> !HasLine(b, X) && !HasLine(b, O) && !Full(b)
  {
    match FirstLine(b, 0)
    case Some(m) =>
      assert HasLine(b, m);
      assert m == X || m == O;
      Won(m)
    case None =>
      if forall i :: 0 <= i < 9 ==> b[i] != Empty then Draw else InProgress
  }

  // ---------------------------------------------------------------------
  // The computer's move
  // ---------------------------------------------------------------------

  predicate Increasing(s: seq<Index>) {
    forall i, j :: 0 <= i < j < |s| ==> s[i] < s[j]
  }

  /** The empty cells from `i` on, in increasing order. */
  function EmptyFrom(b: Board, i: nat): (r: seq<Index>)
    requires i <= 9
    decreases 9 - i
    ensures Increasing(r)
    ensures forall k :: 0 <= k < |r| ==> i <= r[k]
    ensures forall c: Index :: c in r <==> i <= c && b[c] == Empty
  {
    if i == 9 then []
    else if b[i] == Empty then [i as Index] + EmptyFrom(b, i + 1)
    else EmptyFrom(b, i + 1)
  }

  /** `availableMoves`: every empty cell, lowest index first. */
  function AvailableMoves(b: Board): (r: seq<Index>)
    ensures Increasing(r)
    ensures forall c: Index :: c in r <==> b[c] == Empty
    ensures |r| == 0 <==> Full(b)
  {
    var r := EmptyFrom(b, 0);
    assert !Full(b) ==> exists c: Index :: c in r;
    r
  }

  /** Putting `m` on `c` makes `checkWinner` name `m`. */
  predicate Completes(b: Board, c: Index, m: Mark) {
    Winner(b[c := Filled(m)]) == Won(m)
  }

  /** Some empty cell completes a line of `m`. */
  predicate CanComplete(b: Board, m: Mark) {
    exists c: Index :: b[c] == Empty && Completes(b, c, m)
  }

  /** `c` is the lowest empty cell that completes a line of `m`. */
  predicate LeastCompleting(b: Board, c: Index, m: Mark) {
    && b[c] == Empty && Completes(b, c, m)
    && forall d: Index :: d < c && b[d] == Empty ==> !Completes(b, d, m)
  }

  /** The first cell of `moves` where `m` would win. */
  function FirstCompleting(b: Board, moves: seq<Index>, m: Mark): (r: Option<Index>)
    ensures r.Some? ==> r.value in moves && Completes(b, r.value, m)
    ensures r.None? ==> forall c :: c in moves ==> !Completes(b, c, m)
    ensures r.Some? && Increasing(moves) ==>
              forall c :: c in moves && c < r.value ==> !Completes(b, c, m)
  {
    if moves == [] then None
    else if Completes(b, moves[0], m) then Some(moves[0])
    else
      var rest := moves[1..];
      var r := FirstCompleting(b, rest, m);
      assert moves == [moves[0]] + rest;
      assert Increasing(moves) ==> Increasing(rest) by {
        if Increasing(moves) {
          forall i, j | 0 <= i < j < |rest| ensures rest[i] < rest[j] {
            assert rest[i] == moves[i + 1] && rest[j] == moves[j + 1];
          }
        }
      }
      r
  }

  /** `cs.filter(c => moves.includes(c))`. */
  function Keep(cs: seq<Index>, moves: seq<Index>): (r: seq<Index>)
    ensures forall c :: c in r <==> c in cs && c in moves
  {
    if cs == [] then []
    else (if cs[0] in moves then [cs[0]] else []) + Keep(cs[1..], moves)
  }

  /** `getAiMove`. `rnd` stands for the random draw: `Math.floor(Math.random()
      * n)` picks index `rnd % n` of a list of `n` candidates. `None` is the
      `undefined` returned on a full board. */
  function AiMove(b: Board, rnd: nat): (r: Option<Index>)
    ensures r.Some? <==> !Full(b)
    ensures r.Some? ==> b[r.value] == Empty
  {
    var moves := AvailableMoves(b);
    var win := FirstCompleting(b, moves, O);
    if win.Some? then win
    else
      var block := FirstCompleting(b, moves, X);
      if block.Some? then block
      else if Centre in moves then Some(Centre)
      else
        var corners := Keep(Corners, moves);
        if |corners| > 0 then Some(corners[rnd % |corners|])
        else if |moves| > 0 then Some(moves[rnd % |moves|])
        else None
  }

  /** There is at most one lowest completing cell. */
  lemma LeastCompletingUnique(b: Board, c: Index, d: Index, m: Mark)
    requires LeastCompleting(b, c, m) && LeastCompleting(b, d, m)
    ensures c == d
  {
  }

  /** First preference: when O can complete a line, the computer takes the
      lowest cell that does. */
  lemma AiTakesWin(b: Board, rnd: nat)
    requires CanComplete(b, O)
    ensures AiMove(b, rnd).Some? && LeastCompleting(b, AiMove(b, rnd).value, O)
  {
  }

  /** Second: otherwise, when X could complete a line, the computer blocks
      the lowest such cell. */
  lemma AiBlocks(b: Board, rnd: nat)
    requires !CanComplete(b, O) && CanComplete(b, X)
    ensures AiMove(b, rnd).Some? && LeastCompleting(b, AiMove(b, rnd).value, X)
  {
  }

  /** Third: with nothing to win or block, a free centre. */
  lemma AiTakesCentre(b: Board, rnd: nat)
    requires !CanComplete(b, O) && !CanComplete(b, X) && b[Centre] == Empty
    ensures AiMove(b, rnd) == Some(Centre)
  {
  }

  /** Fourth: else one of the free corners, if there is one. */
  lemma AiTakesCorner(b: Board, rnd: nat)
    requires !CanComplete(b, O) && !CanComplete(b, X) && b[Centre] != Empty
    requires exists c :: c in Corners && b[c] == Empty
    ensures AiMove(b, rnd).Some? && AiMove(b, rnd).value in Corners
  {
  }

  // ---------------------------------------------------------------------
  // The game session
  // ---------------------------------------------------------------------

  /** The component's state. `winner` is `InProgress` while it is `null`;
      `namePrompt` is the name-entry dialog. */
  datatype Game = Game(
    board: Board,
    playerTurn: bool,
    winner: Outcome,
    playerWins: nat,
    aiWins: nat,
    namePrompt: bool)

  const Initial: Game := Game(EmptyBoard, true, InProgress, 0, 0, false)

  function CountOf(b: Board, m: Mark): nat {
    multiset(b)[Filled(m)]
  }

  /** The effect that runs after every board change: a decided board is
      recorded once, and an X win raises the name prompt. */
  function Settle(g: Game): (r: Game)
    ensures r.board == g.board && r.playerTurn == g.playerTurn
    ensures Winner(g.board) == InProgress ==> r == g
    ensures Winner(g.board) != InProgress ==> r.winner == Winner(g.board)
    ensures r.playerWins == g.playerWins + (if Winner(g.board) == Won(X) then 1 else 0)
    ensures r.aiWins == g.aiWins + (if Winner(g.board) == Won(O) then 1 else 0)
    ensures r.namePrompt == (g.namePrompt || Winner(g.board) == Won(X))
  {
    match Winner(g.board)
    case InProgress => g
    case Draw => g.(winner := Draw)
    case Won(X) => g.(winner := Won(X), playerWins := g.playerWins + 1, namePrompt := true)
    case Won(O) => g.(winner := Won(O), aiWins := g.aiWins + 1)
  }

  /** `handleCellClick(i)` followed by the effect it triggers. */
  function Click(g: Game, i: Index): (r: Game)
    ensures g.board[i] != Empty || g.winner != InProgress || !g.playerTurn ==> r == g
    ensures g.board[i] == Empty && g.winner == InProgress && g.playerTurn ==>
              && r.board == g.board[i := Filled(X)]
              && !r.playerTurn
              && r.winner == (if Winner(r.board) == InProgress then g.winner else Winner(r.board))
              && r.playerWins == g.playerWins + (if Winner(r.board) == Won(X) then 1 else 0)
              && r.aiWins == g.aiWins + (if Winner(r.board) == Won(O) then 1 else 0)
              && r.namePrompt == (g.namePrompt || Winner(r.board) == Won(X))
    ensures forall c: Index :: g.board[c] != Empty ==> r.board[c] == g.board[c]
  {
    if g.board[i] != Empty || g.winner != InProgress || !g.playerTurn then g
    else Settle(g.(board := g.board[i := Filled(X)], playerTurn := false))
  }

  /** The computer's delayed move: it runs only while it is the computer's
      turn and nothing is decided (the timer is cleared once a winner is
      recorded), places an O if `getAiMove` found a cell, and returns the
      turn to the player. */
  function AiTurn(g: Game, rnd: nat): (r: Game)
    ensures g.playerTurn || g.winner != InProgress ==> r == g
    ensures !g.playerTurn && g.winner == InProgress ==> r.playerTurn
    ensures !g.playerTurn && g.winner == InProgress && Full(g.board) ==> r == g.(playerTurn := true)
    ensures !g.playerTurn && g.winner == InProgress && !Full(g.board) ==>
              && r.board == g.board[AiMove(g.board, rnd).value := Filled(O)]
              && r.winner == (if Winner(r.board) == InProgress then g.winner else Winner(r.board))
              && r.playerWins == g.playerWins + (if Winner(r.board) == Won(X) then 1 else 0)
              && r.aiWins == g.aiWins + (if Winner(r.board) == Won(O) then 1 else 0)
              && r.namePrompt == (g.namePrompt || Winner(r.board) == Won(X))
    ensures r.board == g.board
            || exists c: Index :: g.board[c] == Empty && r.board == g.board[c := Filled(O)]
  {
    if g.playerTurn || g.winner != InProgress then g
    else
      var move := AiMove(g.board, rnd);
      if move.None? then g.(playerTurn := true)
      else
        var board := g.board[move.value := Filled(O)];
        Settle(g.(board := board, playerTurn := true))
  }

  /** `resetGame`: an empty board, nothing decided, the player to move; the
      win counters and the prompt are kept. */
  function Reset(g: Game): (r: Game)
    ensures r.board == EmptyBoard && r.winner == InProgress && r.playerTurn
    ensures r.playerWins == g.playerWins && r.aiWins == g.aiWins
    ensures r.namePrompt == g.namePrompt
  {
    g.(board := EmptyBoard, winner := InProgress, playerTurn := true)
  }

  /** `handleSaveName`: a non-blank name is saved (one more win) and closes
      the prompt; a blank one changes nothing. */
  function SaveName(g: Game, typed: string, st: Leaderboard.Storage): (r: (Game, Leaderboard.Storage))
    ensures Text.AllSpace(typed) ==> r == (g, st)
    ensures !Text.AllSpace(typed) ==>
              && r.0 == g.(namePrompt := false)
              && r.1 == st[Leaderboard.TicTacToeKey :=
                           Leaderboard.SaveWin(Leaderboard.Load(st, Leaderboard.TicTacToeKey), Text.Trim(typed))]
  {
    if Text.Trim(typed) != [] then
      (g.(namePrompt := false), Leaderboard.SubmitWin(st, Leaderboard.TicTacToeKey, typed))
    else (g, st)
  }

  /** The prompt's skip button: the dialog closes and nothing is saved. */
  function SkipName(g: Game): (r: Game)
    ensures !r.namePrompt
    ensures r.board == g.board && r.winner == g.winner && r.playerTurn == g.playerTurn
    ensures r.playerWins == g.playerWins && r.aiWins == g.aiWins
  {
    g.(namePrompt := false)
  }

  // ---------------------------------------------------------------------
  // Invariants of play
  // ---------------------------------------------------------------------

  /** What alternating play keeps true: the recorded winner is the board's,
      and X is level with O on the player's turn and one ahead otherwise. */
  predicate Consistent(g: Game) {
    && g.winner == Winner(g.board)
    && (g.playerTurn ==> CountOf(g.board, X) == CountOf(g.board, O))
    && (!g.playerTurn ==> CountOf(g.board, X) == CountOf(g.board, O) + 1)
  }

  lemma InitialConsistent()
    ensures Consistent(Initial)
  {
    EmptyBoardUndecided();
    assert Filled(X) !in EmptyBoard && Filled(O) !in EmptyBoard;
  }

  /** Nothing is decided on the empty board. */
  lemma EmptyBoardUndecided()
    ensures Winner(EmptyBoard) == InProgress
  {
    assert !Full(EmptyBoard) by { assert EmptyBoard[0] == Empty; }
    forall k, m | 0 <= k < |Lines| ensures !Holds(EmptyBoard, k, m) {
      assert EmptyBoard[Lines[k].0] == Empty;
    }
  }

  lemma ResetConsistent(g: Game)
    ensures Consistent(Reset(g))
  {
    InitialConsistent();
  }

  lemma ClickConsistent(g: Game, i: Index)
    requires Consistent(g)
    ensures Consistent(Click(g, i))
  {
  }

  lemma AiTurnConsistent(g: Game, rnd: nat)
    requires Consistent(g)
    ensures Consistent(AiTurn(g, rnd))
  {
  }

  /** The kinds of event the component handles, leaving storage aside. */
  datatype Event = ClickEv(i: Index) | AiEv(rnd: nat) | ResetEv | SaveEv(typed: string) | SkipEv

  function Step(g: Game, e: Event): Game {
    match e
    case ClickEv(i) => Click(g, i)
    case AiEv(rnd) => AiTurn(g, rnd)
    case ResetEv => Reset(g)
    case SaveEv(typed) => SaveName(g, typed, map[]).0
    case SkipEv => SkipName(g)
  }

  function Run(g: Game, es: seq<Event>): Game
    decreases |es|
  {
    if es == [] then g else Run(Step(g, es[0]), es[1..])
  }

  /** From a consistent state, whatever the player clicks and the computer
      draws, the state stays consistent: in particular X is always level
      with O or one ahead. */
  lemma {:induction false} RunConsistent(g: Game, es: seq<Event>)
    requires Consistent(g)
    decreases |es|
    ensures Consistent(Run(g, es))
    ensures CountOf(Run(g, es).board, X) == CountOf(Run(g, es).board, O)
            || CountOf(Run(g, es).board, X) == CountOf(Run(g, es).board, O) + 1
  {
    if es != [] {
      StepConsistent(g, es[0]);
      RunConsistent(Step(g, es[0]), es[1..]);
    }
  }

  lemma StepConsistent(g: Game, e: Event)
    requires Consistent(g)
    ensures Consistent(Step(g, e))
  {
    match e
    case ClickEv(i) =>
      assert Step(g, e) == Click(g, i);
      ClickConsistent(g, i);
    case AiEv(rnd) =>
      assert Step(g, e) == AiTurn(g, rnd);
      AiTurnConsistent(g, rnd);
    case ResetEv =>
      assert Step(g, e) == Reset(g);
      ResetConsistent(g);
    case SaveEv(typed) =>
      var h := Step(g, e);
      assert h.board == g.board && h.winner == g.winner && h.playerTurn == g.playerTurn;
    case SkipEv =>
      assert Step(g, e) == SkipName(g);
  }

  /** Until a reset, a marked cell keeps its mark. */
  lemma {:induction false} MarksPersist(g: Game, es: seq<Event>)
    requires forall k :: 0 <= k < |es| ==> !es[k].ResetEv?
    decreases |es|
    ensures forall c: Index :: g.board[c] != Empty ==> Run(g, es).board[c] == g.board[c]
  {
    if es != [] {
      var h := Step(g, es[0]);
      assert forall c: Index :: g.board[c] != Empty ==> h.board[c] == g.board[c];
      MarksPersist(h, es[1..]);
    }
  }

  // ---------------------------------------------------------------------
  // Further properties
  // ---------------------------------------------------------------------

  function OtherMark(m: Mark): Mark {
    match m
    case X => O
    case O => X
  }

  function MirrorCell(c: Cell): Cell {
    match c
    case Empty => Empty
    case Filled(m) => Filled(OtherMark(m))
  }

  /** The board with X and O exchanged. */
  function Mirror(b: Board): (r: Board)
    ensures forall i :: 0 <= i < 9 ==> r[i] == MirrorCell(b[i])
  {
    seq(9, i requires 0 <= i < 9 => MirrorCell(b[i]))
  }

  function MirrorOutcome(o: Outcome): Outcome {
    match o
    case Won(m) => Won(OtherMark(m))
    case _ => o
  }

  lemma {:induction false} FirstLineMirror(b: Board, k: nat)
    requires k <= |Lines|
    decreases |Lines| - k
    ensures FirstLine(Mirror(b), k)
            == (match FirstLine(b, k) case None => None case Some(m) => Some(OtherMark(m)))
  {
    if k < |Lines| {
      FirstLineMirror(b, k + 1);
      var (x, y, z) := Lines[k];
      var mb := Mirror(b);
      assert mb[x] == MirrorCell(b[x]) && mb[y] == MirrorCell(b[y]) && mb[z] == MirrorCell(b[z]);
      MirrorCellSame(b[x], b[y]);
      MirrorCellSame(b[x], b[z]);
    }
  }

  /** Exchanging the marks keeps cells apart that were apart. */
  lemma MirrorCellSame(c: Cell, d: Cell)
    ensures MirrorCell(c) == MirrorCell(d) <==> c == d
    ensures MirrorCell(c) == Empty <==> c == Empty
  {
  }

  /** `checkWinner` treats both marks alike: exchanging them exchanges the
      winner and keeps draws and games in progress. */
  lemma WinnerMirror(b: Board)
    ensures Winner(Mirror(b)) == MirrorOutcome(Winner(b))
  {
    FirstLineMirror(b, 0);
  }

  /** X on 0 and 1, O on 3 and 4: X threatens 2, O can win on 5. */
  const WinOrBlock: Board :=
    [Filled(X), Filled(X), Empty, Filled(O), Filled(O), Empty, Empty, Empty, Empty]

  lemma WinOrBlockWinsOn5()
    ensures Completes(WinOrBlock, 5, O)
  {
    var b5 := WinOrBlock[5 := Filled(O)];
    assert Holds(b5, 1, O);
    assert !HasLine(b5, X) by {
      forall k | 0 <= k < |Lines| ensures !Holds(b5, k, X) {
        assert b5[4] == Filled(O) && b5[8] == Empty && b5[7] == Empty && b5[6] == Empty;
      }
    }
  }

  lemma WinOrBlockNotOn2()
    ensures !Completes(WinOrBlock, 2, O)
  {
    var b2 := WinOrBlock[2 := Filled(O)];
    assert !HasLine(b2, X) && !HasLine(b2, O) by {
      forall k, m | 0 <= k < |Lines| ensures !Holds(b2, k, m) {
        assert b2[5] == Empty && b2[6] == Empty && b2[7] == Empty && b2[8] == Empty;
      }
    }
    assert b2[5] == Empty;
  }

  /** On that board the computer completes its own row on 5 rather than
      block X on 2. */
  lemma AiPrefersWinToBlock(rnd: nat)
    ensures AiMove(WinOrBlock, rnd) == Some(5)
  {
    var b := WinOrBlock;
    WinOrBlockWinsOn5();
    WinOrBlockNotOn2();
    assert LeastCompleting(b, 5, O) by {
      assert forall d: Index :: d < 5 && b[d] == Empty ==> d == 2;
    }
    AiTakesWin(b, rnd);
    LeastCompletingUnique(b, AiMove(b, rnd).value, 5, O);
  }
}
