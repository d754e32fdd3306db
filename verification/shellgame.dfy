/** The shell game: a ball is shown under one of three cups, the cups are
    swapped five times, and the player guesses which cup hides the ball.

    `ball` is the ground-truth slot of the ball; `cups[v]` is the ground-truth
    slot of the cup standing at visual position `v`. Swaps permute `cups` and
    never move the ball, so the cup over the ball is the one with
    `cups[v] == ball`. */
module ShellGame {
  import opened Wrappers
  import Leaderboard
  import Text

  /** A slot, visual or ground-truth: 0, 1 or 2. */
  type Slot = i: int | 0 <= i < 3

  /** An arrangement of the three cups: a permutation of the slots. */
  type Cups = c: seq<Slot> | |c| == 3 && c[0] != c[1] && c[0] != c[2] && c[1] != c[2]
    witness [0, 1, 2]

  const Identity: Cups := [0, 1, 2]

  /** Swaps per round (`totalShuffles`). */
  const TotalShuffles: nat := 5

  datatype Phase = Ready | Showing | Shuffling | Guessing | Result

  /** The component's state. `swaps` is the shuffle counter of the running
      round; `namePrompt` is the name-entry dialog. */
  datatype Shell = Shell(
    ball: Slot,
    phase: Phase,
    selected: Option<Slot>,
    wins: nat,
    losses: nat,
    cups: Cups,
    swaps: nat,
    namePrompt: bool)

  /** The state on mount: the ball starts in the middle slot. */
  const Initial: Shell := Shell(1, Ready, None, 0, 0, Identity, 0, false)

  // ---------------------------------------------------------------------
  // Cup arrangements
  // ---------------------------------------------------------------------

  /** `currentPositions.indexOf(slot)`: the visual position of the cup that
      stands over ground-truth slot `slot`. */
  function PositionOf(c: Cups, slot: Slot): (v: Slot)
    ensures c[v] == slot
    ensures forall w: Slot :: c[w] == slot ==> w == v
  {
    if c[0] == slot then 0 else if c[1] == slot then 1 else 2
  }

  /** One shuffle step: the cups over slots `p1` and `p2` exchange places.
      The result is again a permutation, by its type. */
  function SwapCups(c: Cups, p1: Slot, p2: Slot): (r: Cups)
    requires p1 != p2
    ensures var i, j := PositionOf(c, p1), PositionOf(c, p2);
      && i != j
      && r[i] == c[j] && r[j] == c[i]
      && forall k: Slot :: k != i && k != j ==> r[k] == c[k]
    ensures multiset(r) == multiset(c)
  {
    var i, j := PositionOf(c, p1), PositionOf(c, p2);
    c[i := c[j]][j := c[i]]
  }

  /** The re-draw loop for the second slot: the first draw that differs
      from `p1`, if the random source ever yields one. */
  function SecondSlot(p1: Slot, draws: seq<Slot>): (r: Option<Slot>)
    ensures r.Some? ==> r.value != p1 && r.value in draws
    ensures r.Some? ==> exists k :: 0 <= k < |draws| && draws[k] == r.value
                                   && forall l :: 0 <= l < k ==> draws[l] == p1
    ensures r.None? <==> forall k :: 0 <= k < |draws| ==> draws[k] == p1
  {
    if draws == [] then None
    else if draws[0] != p1 then Some(draws[0])
    else
      match SecondSlot(p1, draws[1..])
      case None => None
      case Some(v) =>
        assert exists k :: 0 <= k < |draws| - 1 && draws[1..][k] == v
                           && forall l :: 0 <= l < k ==> draws[1..][l] == p1;
        var k :| 0 <= k < |draws| - 1 && draws[1..][k] == v
                 && forall l :: 0 <= l < k ==> draws[1..][l] == p1;
        assert draws[k + 1] == v;
        Some(v)
  }

  // ---------------------------------------------------------------------
  // The round
  // ---------------------------------------------------------------------

  /** `startGame`, with `ball` the random slot: the ball is placed and shown,
      the cups stand in order and nothing is selected. */
  function Start(s: Shell, ball: Slot): (r: Shell)
    ensures r.ball == ball && r.phase == Showing && r.selected == None
    ensures r.cups == Identity
    ensures r.wins == s.wins && r.losses == s.losses
    ensures r.namePrompt == s.namePrompt && r.swaps == s.swaps
  {
    s.(ball := ball, selected := None, cups := Identity, phase := Showing)
  }

  /** The reveal timer: shuffling begins, counting from zero swaps over the
      fresh arrangement `[0, 1, 2]` that `performShuffle` starts from. */
  function BeginShuffle(s: Shell): (r: Shell)
    ensures r.phase == Shuffling && r.swaps == 0 && r.cups == Identity
    ensures r.ball == s.ball && r.wins == s.wins && r.losses == s.losses
    ensures r.selected == s.selected && r.namePrompt == s.namePrompt
  {
    s.(phase := Shuffling, swaps := 0, cups := Identity)
  }

  /** One call of `shuffle`: after five swaps it opens guessing; before that
      it swaps the cups over the two distinct drawn slots and counts. */
  function ShuffleStep(s: Shell, p1: Slot, p2: Slot): (r: Shell)
    requires p1 != p2
    ensures s.swaps >= TotalShuffles ==> r == s.(phase := Guessing)
    ensures s.swaps < TotalShuffles ==>
              && r.swaps == s.swaps + 1 && r.phase == s.phase
              && r.cups == SwapCups(s.cups, p1, p2)
              && multiset(r.cups) == multiset(s.cups)
              && |set v: Slot | r.cups[v] != s.cups[v]| == 2
    ensures r.ball == s.ball && r.wins == s.wins && r.losses == s.losses
    ensures r.selected == s.selected && r.namePrompt == s.namePrompt
  {
    if s.swaps >= TotalShuffles then s.(phase := Guessing)
    else
      SwapChangesTwo(s.cups, p1, p2);
      s.(cups := SwapCups(s.cups, p1, p2), swaps := s.swaps + 1)
  }

  /** A swap moves exactly two cups. */
  lemma SwapChangesTwo(c: Cups, p1: Slot, p2: Slot)
    requires p1 != p2
    ensures |set v: Slot | SwapCups(c, p1, p2)[v] != c[v]| == 2
  {
    var r := SwapCups(c, p1, p2);
    var i, j := PositionOf(c, p1), PositionOf(c, p2);
    assert (set v: Slot | r[v] != c[v]) == {i, j};
  }

  /** The whole chain of `shuffle` calls, one pair of draws per call. */
  function RunShuffle(s: Shell, draws: seq<(Slot, Slot)>): (r: Shell)
    requires forall k :: 0 <= k < |draws| ==> draws[k].0 != draws[k].1
    decreases |draws|
    ensures r.ball == s.ball && r.wins == s.wins && r.losses == s.losses
    ensures r.selected == s.selected && r.namePrompt == s.namePrompt
  {
    if draws == [] then s
    else RunShuffle(ShuffleStep(s, draws[0].0, draws[0].1), draws[1..])
  }

  /** `selectCup(v)`: ignored outside guessing; otherwise the round ends, and
      it is a win exactly when the chosen cup stands over the ball. */
  function SelectCup(s: Shell, v: Slot): (r: Shell)
    ensures s.phase != Guessing ==> r == s
    ensures s.phase == Guessing ==>
              && r.phase == Result && r.selected == Some(v)
              && r.wins + r.losses == s.wins + s.losses + 1
              && (r.wins == s.wins + 1 <==> s.cups[v] == s.ball)
              && (r.losses == s.losses + 1 <==> s.cups[v] != s.ball)
              && r.namePrompt == (s.namePrompt || s.cups[v] == s.ball)
    ensures r.cups == s.cups && r.ball == s.ball && r.swaps == s.swaps
  {
    if s.phase != Guessing then s
    else
      var won := s.cups[v] == s.ball;
      s.(selected := Some(v), phase := Result,
         wins := if won then s.wins + 1 else s.wins,
         losses := if won then s.losses else s.losses + 1,
         namePrompt := s.namePrompt || won)
  }

  /** `resetGame`: back to the start screen with the cups in order. */
  function Reset(s: Shell): (r: Shell)
    ensures r.phase == Ready && r.selected == None && r.cups == Identity
    ensures r.wins == s.wins && r.losses == s.losses && r.ball == s.ball
    ensures r.namePrompt == s.namePrompt && r.swaps == s.swaps
  {
    s.(phase := Ready, selected := None, cups := Identity)
  }

  /** `handleSaveName`: a non-blank name gets one more win and the prompt
      closes; a blank one changes nothing. */
  function SaveName(s: Shell, typed: string, st: Leaderboard.Storage): (r: (Shell, Leaderboard.Storage))
    ensures Text.AllSpace(typed) ==> r == (s, st)
    ensures !Text.AllSpace(typed) ==>
              && r.0 == s.(namePrompt := false)
              && r.1 == st[Leaderboard.ShellGameKey :=
                           Leaderboard.SaveWin(Leaderboard.Load(st, Leaderboard.ShellGameKey), Text.Trim(typed))]
  {
    if Text.Trim(typed) != [] then
      (s.(namePrompt := false), Leaderboard.SubmitWin(st, Leaderboard.ShellGameKey, typed))
    else (s, st)
  }

  /** The prompt's skip button: the dialog closes and nothing is saved. */
  function SkipName(s: Shell): (r: Shell)
    ensures !r.namePrompt
    ensures r.phase == s.phase && r.cups == s.cups && r.ball == s.ball
    ensures r.wins == s.wins && r.losses == s.losses
    ensures r.selected == s.selected && r.swaps == s.swaps
  {
    s.(namePrompt := false)
  }

  /** The ball is drawn under visual position `v`: that cup stands over it
      and the phase reveals it. */
  predicate BallShown(s: Shell, v: Slot) {
    s.cups[v] == s.ball && (s.phase == Showing || s.phase == Result)
  }

  // ---------------------------------------------------------------------
  // Properties
  // ---------------------------------------------------------------------

  /** Exactly one cup stands over the ball. */
  lemma OneCupHasBall(s: Shell)
    ensures exists v: Slot :: s.cups[v] == s.ball
    ensures forall v: Slot, w: Slot :: s.cups[v] == s.ball && s.cups[w] == s.ball ==> v == w
  {
    var v := PositionOf(s.cups, s.ball);
  }

  /** The ball is drawn in exactly one place while revealed, nowhere else. */
  lemma BallShownOnlyWhenRevealed(s: Shell)
    ensures (exists v: Slot :: BallShown(s, v)) <==> s.phase == Showing || s.phase == Result
    ensures forall v: Slot, w: Slot :: BallShown(s, v) && BallShown(s, w) ==> v == w
  {
    var v := PositionOf(s.cups, s.ball);
    assert s.phase == Showing || s.phase == Result ==> BallShown(s, v);
  }

  /** A shuffle started by the reveal timer makes exactly five swaps: the
      first five calls of `shuffle` keep shuffling, the sixth opens guessing. */
  lemma {:induction false} ShuffleCount(s: Shell, draws: seq<(Slot, Slot)>)
    requires s.phase == Shuffling && s.swaps <= TotalShuffles
    requires forall k :: 0 <= k < |draws| ==> draws[k].0 != draws[k].1
    requires |draws| <= TotalShuffles - s.swaps + 1
    decreases |draws|
    ensures var r := RunShuffle(s, draws);
      && (|draws| <= TotalShuffles - s.swaps ==> r.phase == Shuffling && r.swaps == s.swaps + |draws|)
      && (|draws| == TotalShuffles - s.swaps + 1 ==> r.phase == Guessing && r.swaps == TotalShuffles)
  {
    if draws != [] {
      var t := ShuffleStep(s, draws[0].0, draws[0].1);
      if s.swaps == TotalShuffles {
        assert draws[1..] == [];
      } else {
        ShuffleCount(t, draws[1..]);
      }
    }
  }

  /** Whatever the draws, the arrangement stays a rearrangement of the
      three cups and the ball does not move. */
  lemma {:induction false} ShuffleKeepsCups(s: Shell, draws: seq<(Slot, Slot)>)
    requires forall k :: 0 <= k < |draws| ==> draws[k].0 != draws[k].1
    decreases |draws|
    ensures multiset(RunShuffle(s, draws).cups) == multiset(s.cups)
  {
    if draws != [] {
      ShuffleKeepsCups(ShuffleStep(s, draws[0].0, draws[0].1), draws[1..]);
    }
  }

  /** A full round from the start: after the reveal and the six calls of
      `shuffle` the player guesses, and the guess is right exactly when the
      cup chosen stands over the ball that was shown. */
  lemma RoundOutcome(s: Shell, ball: Slot, draws: seq<(Slot, Slot)>, v: Slot)
    requires |draws| == TotalShuffles + 1
    requires forall k :: 0 <= k < |draws| ==> draws[k].0 != draws[k].1
    ensures var g := RunShuffle(BeginShuffle(Start(s, ball)), draws);
      && g.phase == Guessing
      && (SelectCup(g, v).wins == s.wins + 1 <==> g.cups[v] == ball)
  {
    ShuffleCount(BeginShuffle(Start(s, ball)), draws);
  }
}
