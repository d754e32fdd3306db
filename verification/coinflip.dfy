/** The coin flip: the player calls heads or tails, the coin lands after a
    delay, and the streak of correct calls is tracked along with the best
    streak ever reached. A streak that ends above zero is offered to the
    leaderboard. */
module CoinFlip {
  import opened Wrappers
  import Leaderboard
  import Text

  datatype Side = Heads | Tails

  /** What the landing timer's closure captured when the flip started: the
      call, and the streak and best streak of that moment. */
  datatype Pending = Pending(guess: Side, streak: nat, best: nat)

  /** The component's state. A flip is running (`isFlipping`) exactly while
      `pending` holds its closure. `saved` is the stored best streak;
      `lastStreak` is the finished streak offered to the name prompt. */
  datatype Coin = Coin(
    pending: Option<Pending>,
    result: Option<Side>,
    guess: Option<Side>,
    streak: nat,
    best: nat,
    saved: Option<nat>,
    lastStreak: nat,
    namePrompt: bool)

  /** The state on mount: the best streak is read back from storage, zero
      when nothing is stored. */
  function Initial(saved: Option<nat>): (r: Coin)
    ensures r.streak == 0 && r.pending == None && r.lastStreak == 0
    ensures r.result == None && r.guess == None && !r.namePrompt
    ensures r.best == saved.GetOr(0) && r.saved == saved
  {
    Coin(None, None, None, 0, saved.GetOr(0), saved, 0, false)
  }

  /** `flipCoin(g)`: ignored while a flip runs; otherwise records the call,
      clears the shown result and starts the landing timer. */
  function Flip(c: Coin, g: Side): (r: Coin)
    ensures c.pending.Some? ==> r == c
    ensures c.pending.None? ==>
              && r.pending == Some(Pending(g, c.streak, c.best))
              && r.guess == Some(g) && r.result == None
              && r.streak == c.streak && r.best == c.best
    ensures r.lastStreak == c.lastStreak && r.namePrompt == c.namePrompt && r.saved == c.saved
  {
    if c.pending.Some? then c
    else c.(guess := Some(g), pending := Some(Pending(g, c.streak, c.best)), result := None)
  }

  /** The landing timer, with `outcome` the random side. It works from the
      values its closure captured: a correct call makes the captured streak
      one longer and raises the best streak if beaten; a wrong one ends the
      streak, and a captured streak above zero is offered to the prompt. */
  function Land(c: Coin, outcome: Side): (r: Coin)
    ensures c.pending.None? ==> r == c
    ensures c.pending.Some? ==> r.pending.None? && r.result == Some(outcome)
    ensures r.guess == c.guess
    ensures c.pending.Some? && outcome == c.pending.value.guess ==>
              && r.streak == c.pending.value.streak + 1
              && (r.streak > c.pending.value.best ==> r.best == r.streak && r.saved == Some(r.streak))
              && (r.streak <= c.pending.value.best ==> r.best == c.best && r.saved == c.saved)
              && r.lastStreak == c.lastStreak && r.namePrompt == c.namePrompt
    ensures c.pending.Some? && outcome != c.pending.value.guess ==>
              && r.streak == 0 && r.best == c.best && r.saved == c.saved
              && (c.pending.value.streak > 0 ==> r.lastStreak == c.pending.value.streak && r.namePrompt)
              && (c.pending.value.streak == 0 ==> r.lastStreak == c.lastStreak && r.namePrompt == c.namePrompt)
  {
    match c.pending
    case None => c
    case Some(p) =>
      var landed := c.(result := Some(outcome), pending := None);
      if outcome == p.guess then
        var next := p.streak + 1;
        if next > p.best then landed.(streak := next, best := next, saved := Some(next))
        else landed.(streak := next)
      else if p.streak > 0 then landed.(lastStreak := p.streak, namePrompt := true, streak := 0)
      else landed.(streak := 0)
  }

  /** `resetGame`: clears the call and the result and zeroes the streak. The
      button stays enabled during a flip, and a running flip is not stopped. */
  function Reset(c: Coin): (r: Coin)
    ensures r.streak == 0 && r.result == None && r.guess == None
    ensures r.best == c.best && r.pending == c.pending && r.lastStreak == c.lastStreak
    ensures r.namePrompt == c.namePrompt && r.saved == c.saved
  {
    c.(result := None, guess := None, streak := 0)
  }

  /** `handleSaveName`: needs a non-blank name and a finished streak above
      zero; saves that streak and closes the prompt. */
  function SaveName(c: Coin, typed: string, st: Leaderboard.Storage): (r: (Coin, Leaderboard.Storage))
    ensures Text.AllSpace(typed) || c.lastStreak == 0 ==> r == (c, st)
    ensures !Text.AllSpace(typed) && c.lastStreak > 0 ==>
              && r.0 == c.(namePrompt := false, lastStreak := 0)
              && r.1 == st[Leaderboard.CoinFlipKey :=
                           Leaderboard.SaveStreak(Leaderboard.Load(st, Leaderboard.CoinFlipKey),
                                                  Text.Trim(typed), c.lastStreak)]
  {
    if Text.Trim(typed) != [] && c.lastStreak > 0 then
      (c.(namePrompt := false, lastStreak := 0), Leaderboard.SubmitStreak(st, typed, c.lastStreak))
    else (c, st)
  }

  /** The prompt's skip button: closes it and forgets the finished streak. */
  function SkipName(c: Coin): (r: Coin)
    ensures !r.namePrompt && r.lastStreak == 0
    ensures r.streak == c.streak && r.best == c.best && r.saved == c.saved
    ensures r.pending == c.pending && r.result == c.result && r.guess == c.guess
  {
    c.(namePrompt := false, lastStreak := 0)
  }

  // ---------------------------------------------------------------------
  // Invariants
  // ---------------------------------------------------------------------

  /** What every reachable state satisfies: the streak never exceeds the
      best streak, a running flip's closure saw the current best and a
      streak within it, and a stored best equals the best shown. */
  predicate Valid(c: Coin) {
    && c.streak <= c.best
    && (c.pending.Some? ==> c.pending.value.streak <= c.best && c.pending.value.best == c.best)
    && (c.saved.Some? ==> c.saved.value == c.best)
  }

  /** The kinds of event the component handles. */
  datatype Event = FlipEv(g: Side) | LandEv(outcome: Side) | ResetEv | SaveEv(typed: string) | SkipEv

  /** One event, leaving storage aside. */
  function Step(c: Coin, e: Event): Coin {
    match e
    case FlipEv(g) => Flip(c, g)
    case LandEv(o) => Land(c, o)
    case ResetEv => Reset(c)
    case SaveEv(typed) => SaveName(c, typed, map[]).0
    case SkipEv => SkipName(c)
  }

  /** Every event keeps `Valid` and never lowers the best streak. */
  lemma StepValid(c: Coin, e: Event)
    requires Valid(c)
    ensures Valid(Step(c, e))
    ensures Step(c, e).best >= c.best
  {
  }

  function Run(c: Coin, es: seq<Event>): Coin
    decreases |es|
  {
    if es == [] then c else Run(Step(c, es[0]), es[1..])
  }

  /** From mount on, whatever happens, the streak stays within the best
      streak and the best streak never goes down. */
  lemma {:induction false} RunValid(c: Coin, es: seq<Event>)
    requires Valid(c)
    decreases |es|
    ensures Valid(Run(c, es))
    ensures Run(c, es).best >= c.best
  {
    if es != [] {
      StepValid(c, es[0]);
      RunValid(Step(c, es[0]), es[1..]);
    }
  }

  lemma InitialValid(saved: Option<nat>)
    ensures Valid(Initial(saved))
  {
  }

  /** A reset pressed while the coin is in the air does not stick: the
      landing works from the streak captured at the call, so a correct call
      continues the old streak. */
  lemma ResetDuringFlipUndone(c: Coin, g: Side)
    requires c.pending.None?
    ensures Land(Reset(Flip(c, g)), g).streak == c.streak + 1
  {
  }
}
