/** The local leaderboards of the three games.

    Each game keeps at most five `{name, score}` rows under its own storage
    key. Saving a score updates or appends one row, sorts the list by score,
    highest first, with a stable sort, and keeps the first five rows. Two
    update rules exist side by side:
    - tic-tac-toe and the shell game count wins: a known name gets one more
      win, a new name starts at one win (`SaveWin`);
    - the coin flip keeps each name's best streak (`SaveStreak`). */
module Leaderboard {
  import opened Wrappers
  import Text

  /** One stored row; `score` is a win count or a streak length. */
  datatype Entry = Entry(name: string, score: nat)

  /** Rows kept after every save (`scores.slice(0, 5)`). */
  const MaxEntries: nat := 5

  const TicTacToeKey: string := "tictactoe-leaderboard"
  const ShellGameKey: string := "shellgame-leaderboard"
  const CoinFlipKey: string := "coinflip-leaderboard"

  /** Browser local storage, reduced to the parsed row lists per key. */
  type Storage = map<string, seq<Entry>>

  /** `getStoredScores`: the stored rows, or none when the key is absent. */
  function Load(st: Storage, key: string): (r: seq<Entry>)
    ensures key !in st ==> r == []
    ensures key in st ==> r == st[key]
  {
    if key in st then st[key] else []
  }

  // ---------------------------------------------------------------------
  // Orderings and shapes of row lists
  // ---------------------------------------------------------------------

  /** Non-increasing by score. */
  predicate SortedDesc(s: seq<Entry>) {
    forall i, j :: 0 <= i < j < |s| ==> s[i].score >= s[j].score
  }

  /** No name appears twice. */
  predicate NamesUnique(s: seq<Entry>) {
    forall i, j :: 0 <= i < j < |s| ==> s[i].name != s[j].name
  }

  predicate HasName(s: seq<Entry>, name: string) {
    exists i :: 0 <= i < |s| && s[i].name == name
  }

  /** The rows of `s` whose score is `k`, in their order in `s`. A sort is
      stable exactly when it keeps every such subsequence unchanged. */
  function WithScore(s: seq<Entry>, k: nat): (r: seq<Entry>)
    ensures |r| <= |s|
  {
    if s == [] then []
    else (if s[0].score == k then [s[0]] else []) + WithScore(s[1..], k)
  }

  // ---------------------------------------------------------------------
  // Stable descending sort (`scores.sort((a, b) => b.score - a.score)`)
  // ---------------------------------------------------------------------

  /** Inserts `e` into `s` just before the first row with a strictly smaller
      score: after every row that ties with it, which is what a stable sort
      does with a row that came later in its input. */
  function Insert(s: seq<Entry>, e: Entry): (r: seq<Entry>)
    ensures |r| == |s| + 1
  {
    if s == [] then [e]
    else if s[0].score < e.score then [e] + s
    else [s[0]] + Insert(s[1..], e)
  }

  /** Where `Insert` puts `e`: the first index whose row scores below it. */
  function InsertPos(s: seq<Entry>, e: Entry): (j: nat)
    ensures j <= |s|
    ensures forall i :: 0 <= i < j ==> s[i].score >= e.score
    ensures j < |s| ==> s[j].score < e.score
  {
    if s == [] || s[0].score < e.score then 0 else 1 + InsertPos(s[1..], e)
  }

  /** The stable sort, highest score first: insertion of each row, in input
      order, into the sorted prefix before it. */
  function SortDesc(s: seq<Entry>): (r: seq<Entry>)
    ensures |r| == |s|
    ensures SortedDesc(r)
    ensures multiset(r) == multiset(s)
  {
    if s == [] then []
    else
      assert s == s[..|s| - 1] + [s[|s| - 1]];
      var sorted := SortDesc(s[..|s| - 1]);
      InsertSorted(sorted, s[|s| - 1]);
      InsertMultiset(sorted, s[|s| - 1]);
      Insert(sorted, s[|s| - 1])
  }

  /** `slice(0, n)`. */
  function Take(s: seq<Entry>, n: nat): (r: seq<Entry>)
    ensures |r| == if |s| <= n then |s| else n
    ensures |s| <= n ==> r == s
    ensures r == s[..|r|]
  {
    if |s| <= n then s else s[..n]
  }

  /** `scores.find(s => s.name === name)`, as the index of the first match. */
  function FindName(s: seq<Entry>, name: string): (r: Option<nat>)
    ensures r.None? <==> !HasName(s, name)
    ensures r.Some? ==> r.value < |s| && s[r.value].name == name
    ensures r.Some? ==> forall k :: 0 <= k < r.value ==> s[k].name != name
  {
    if s == [] then None
    else if s[0].name == name then Some(0)
    else
      match FindName(s[1..], name)
      case None => None
      case Some(i) => Some(i + 1)
  }

  /** Sort and truncate: the common tail of every `saveScore`. */
  function Finish(s: seq<Entry>): (r: seq<Entry>)
    ensures |r| == if |s| <= MaxEntries then |s| else MaxEntries
    ensures r == SortDesc(s)[..|r|]
    ensures SortedDesc(r)
    ensures multiset(r) <= multiset(s)
    ensures |s| <= MaxEntries ==> multiset(r) == multiset(s)
  {
    var sorted := SortDesc(s);
    var r := Take(sorted, MaxEntries);
    assert sorted == r + sorted[|r|..];
    r
  }

  /** Sorting and cutting invents no row. */
  lemma FinishMembers(s: seq<Entry>)
    ensures forall e :: e in Finish(s) ==> e in s
  {
    var r := Finish(s);
    forall e | e in r ensures e in s {
      assert e in multiset(r);
    }
  }

  // ---------------------------------------------------------------------
  // The two update rules
  // ---------------------------------------------------------------------

  /** The win-count update before sorting: one more win for a known name,
      a new row with one win otherwise. */
  function AddWin(s: seq<Entry>, name: string): (r: seq<Entry>)
  {
    match FindName(s, name)
    case Some(i) => s[i := Entry(name, s[i].score + 1)]
    case None => s + [Entry(name, 1)]
  }

  /** `saveScore(name)` of tic-tac-toe and of the shell game. */
  function SaveWin(s: seq<Entry>, name: string): (r: seq<Entry>)
    ensures |r| <= MaxEntries
    ensures SortedDesc(r)
    ensures forall e :: e in r ==> e in s || e.name == name
    ensures HasName(s, name) && |s| <= MaxEntries ==> HasName(r, name)
  {
    var added := AddWin(s, name);
    var r := Finish(added);
    FinishMembers(added);
    if HasName(s, name) && |s| <= MaxEntries then
      var i := FindName(s, name).value;
      assert added[i] in multiset(r);
      r
    else r
  }

  /** The best-streak update before sorting: a known name keeps the larger of
      its stored streak and the new one, a new name is appended. */
  function AddStreak(s: seq<Entry>, name: string, streak: nat): (r: seq<Entry>)
  {
    match FindName(s, name)
    case Some(i) => if streak > s[i].score then s[i := Entry(name, streak)] else s
    case None => s + [Entry(name, streak)]
  }

  /** `saveScore(name, streak)` of the coin flip. */
  function SaveStreak(s: seq<Entry>, name: string, streak: nat): (r: seq<Entry>)
    ensures |r| <= MaxEntries
    ensures SortedDesc(r)
    ensures forall e :: e in r ==> e in s || e == Entry(name, streak)
  {
    var added := AddStreak(s, name, streak);
    FinishMembers(added);
    Finish(added)
  }

  /** `handleSaveName` of the win-counting games: the typed name is trimmed,
      and only a non-empty name is saved under `key`. */
  function SubmitWin(st: Storage, key: string, typed: string): (r: Storage)
    ensures Text.AllSpace(typed) ==> r == st
    ensures !Text.AllSpace(typed) ==>
              r == st[key := SaveWin(Load(st, key), Text.Trim(typed))]
  {
    var name := Text.Trim(typed);
    if name != [] then st[key := SaveWin(Load(st, key), name)] else st
  }

  /** `handleSaveName` of the coin flip: a non-empty trimmed name and a
      positive captured streak are both required. */
  function SubmitStreak(st: Storage, typed: string, streak: nat): (r: Storage)
    ensures Text.AllSpace(typed) || streak == 0 ==> r == st
    ensures !Text.AllSpace(typed) && streak > 0 ==>
              r == st[CoinFlipKey := SaveStreak(Load(st, CoinFlipKey), Text.Trim(typed), streak)]
  {
    var name := Text.Trim(typed);
    if name != [] && streak > 0
    then st[CoinFlipKey := SaveStreak(Load(st, CoinFlipKey), name, streak)]
    else st
  }

  // ---------------------------------------------------------------------
  // Properties of the sort
  // ---------------------------------------------------------------------

  /** `Insert` places `e` at `InsertPos`, keeping every other row in order. */
  lemma {:induction false} InsertShape(s: seq<Entry>, e: Entry)
    ensures Insert(s, e) == s[..InsertPos(s, e)] + [e] + s[InsertPos(s, e)..]
  {
    if s == [] || s[0].score < e.score {
      assert s[..0] == [] && s[0..] == s;
    } else {
      var t := s[1..];
      var q := InsertPos(t, e);
      InsertShape(t, e);
      assert Insert(s, e) == [s[0]] + (t[..q] + [e] + t[q..]);
      assert s[..q + 1] == [s[0]] + t[..q];
      assert s[q + 1..] == t[q..];
    }
  }

  /** `Insert` adds exactly the one row `e`. */
  lemma {:induction false} InsertMultiset(s: seq<Entry>, e: Entry)
    ensures multiset(Insert(s, e)) == multiset(s) + multiset{e}
  {
    if s == [] {
    } else if s[0].score < e.score {
      assert Insert(s, e) == [e] + s;
    } else {
      var t := s[1..];
      InsertMultiset(t, e);
      var rt := Insert(t, e);
      assert Insert(s, e) == [s[0]] + rt;
      assert s == [s[0]] + t;
      assert multiset(Insert(s, e)) == multiset{s[0]} + multiset(rt);
    }
  }

  /** A row scoring at least as much as every row of a sorted list can go
      in front of it. */
  lemma SortedCons(h: Entry, t: seq<Entry>)
    requires SortedDesc(t)
    requires forall x :: x in t ==> x.score <= h.score
    ensures SortedDesc([h] + t)
  {
    var r := [h] + t;
    forall i, j | 0 <= i < j < |r| ensures r[i].score >= r[j].score {
      assert r[j] == t[j - 1];
      if i > 0 { assert r[i] == t[i - 1]; }
    }
  }

  /** Inserting into a sorted list keeps it sorted. */
  lemma {:induction false} InsertSorted(s: seq<Entry>, e: Entry)
    requires SortedDesc(s)
    ensures SortedDesc(Insert(s, e))
  {
    if s == [] || s[0].score < e.score {
      forall x | x in s ensures x.score <= e.score { }
      SortedCons(e, s);
    } else {
      var t := s[1..];
      var rt := Insert(t, e);
      InsertSorted(t, e);
      InsertMultiset(t, e);
      forall x | x in rt ensures x.score <= s[0].score {
        assert x in multiset(rt);
      }
      SortedCons(s[0], rt);
    }
  }

  /** `WithScore` distributes over concatenation. */
  lemma {:induction false} WithScoreAppend(a: seq<Entry>, b: seq<Entry>, k: nat)
    ensures WithScore(a + b, k) == WithScore(a, k) + WithScore(b, k)
  {
    if a == [] {
      assert a + b == b;
    } else {
      var ab := a + b;
      assert ab[0] == a[0] && ab[1..] == a[1..] + b;
      WithScoreAppend(a[1..], b, k);
      var h := if a[0].score == k then [a[0]] else [];
      calc {
        WithScore(ab, k);
        h + WithScore(a[1..] + b, k);
        h + (WithScore(a[1..], k) + WithScore(b, k));
        (h + WithScore(a[1..], k)) + WithScore(b, k);
        WithScore(a, k) + WithScore(b, k);
      }
    }
  }

  /** Inserting into a sorted list appends `e` to its tie group. */
  lemma {:induction false} InsertStable(s: seq<Entry>, e: Entry, k: nat)
    requires SortedDesc(s)
    ensures WithScore(Insert(s, e), k) == WithScore(s, k) + (if e.score == k then [e] else [])
  {
    var mid := if e.score == k then [e] else [];
    if s == [] {
      assert WithScore([e], k) == mid + WithScore([], k);
    } else if s[0].score < e.score {
      assert ([e] + s)[1..] == s;
      if e.score == k {
        WithScoreNone(s, k);
      }
    } else {
      var t := s[1..];
      InsertStable(t, e, k);
      assert ([s[0]] + Insert(t, e))[1..] == Insert(t, e);
      var h := if s[0].score == k then [s[0]] else [];
      calc {
        WithScore(Insert(s, e), k);
        h + WithScore(Insert(t, e), k);
        h + (WithScore(t, k) + mid);
        (h + WithScore(t, k)) + mid;
        WithScore(s, k) + mid;
      }
    }
  }

  lemma {:induction false} WithScoreNone(s: seq<Entry>, k: nat)
    requires forall i :: 0 <= i < |s| ==> s[i].score < k
    ensures WithScore(s, k) == []
  {
    if s != [] {
      WithScoreNone(s[1..], k);
    }
  }

  /** `SortDesc` is stable: rows that tie keep their input order. */
  lemma {:induction false} SortStable(s: seq<Entry>, k: nat)
    ensures WithScore(SortDesc(s), k) == WithScore(s, k)
  {
    if s != [] {
      var init, last := s[..|s| - 1], s[|s| - 1];
      assert s == init + [last];
      SortStable(init, k);
      InsertStable(SortDesc(init), last, k);
      WithScoreAppend(init, [last], k);
    }
  }

  /** A row that scores no higher than every row of `s` goes last. */
  lemma {:induction false} InsertLowest(s: seq<Entry>, e: Entry)
    requires forall i :: 0 <= i < |s| ==> s[i].score >= e.score
    ensures Insert(s, e) == s + [e]
  {
    if s != [] {
      InsertLowest(s[1..], e);
      assert s == [s[0]] + s[1..];
    }
  }

  /** Sorting an already sorted list changes nothing. */
  lemma {:induction false} SortSorted(s: seq<Entry>)
    requires SortedDesc(s)
    ensures SortDesc(s) == s
  {
    if s != [] {
      var init := s[..|s| - 1];
      SortSorted(init);
      InsertLowest(init, s[|s| - 1]);
      assert init + [s[|s| - 1]] == s;
    }
  }

  /** A row whose name no row of `t` has can go in front of it. */
  lemma NamesCons(h: Entry, t: seq<Entry>)
    requires NamesUnique(t)
    requires forall x :: x in t ==> x.name != h.name
    ensures NamesUnique([h] + t)
  {
    var r := [h] + t;
    forall i, j | 0 <= i < j < |r| ensures r[i].name != r[j].name {
      assert r[j] == t[j - 1];
      if i > 0 { assert r[i] == t[i - 1]; }
    }
  }

  lemma {:induction false} InsertNames(s: seq<Entry>, e: Entry)
    requires NamesUnique(s)
    requires !HasName(s, e.name)
    ensures NamesUnique(Insert(s, e))
  {
    if s == [] || s[0].score < e.score {
      forall x | x in s ensures x.name != e.name { }
      NamesCons(e, s);
    } else {
      var t := s[1..];
      var rt := Insert(t, e);
      assert NamesUnique(t) && !HasName(t, e.name) by {
        forall i | 0 <= i < |t| ensures t[i] == s[i + 1] { }
      }
      InsertNames(t, e);
      InsertMultiset(t, e);
      forall x | x in rt ensures x.name != s[0].name {
        assert x in multiset(rt);
        if x != e {
          var l :| 0 <= l < |t| && t[l] == x;
          assert t[l] == s[l + 1];
        }
      }
      NamesCons(s[0], rt);
    }
  }

  /** Sorting keeps names unique. */
  lemma {:induction false} SortNames(s: seq<Entry>)
    requires NamesUnique(s)
    ensures NamesUnique(SortDesc(s))
  {
    if s != [] {
      var init, last := s[..|s| - 1], s[|s| - 1];
      SortNames(init);
      var t := SortDesc(init);
      forall i | 0 <= i < |t| ensures t[i].name != last.name {
        assert t[i] in multiset(init);
        var j :| 0 <= j < |init| && init[j] == t[i];
        assert init[j] == s[j];
      }
      InsertNames(t, last);
    }
  }

  // ---------------------------------------------------------------------
  // Properties of the two save rules
  // ---------------------------------------------------------------------

  /** Saving as a sort of the updated list: the row added last by `AddWin`
      or `AddStreak` is the one `SortDesc` inserts last. */
  lemma SortAppended(s: seq<Entry>, e: Entry)
    ensures SortDesc(s + [e]) == Insert(SortDesc(s), e)
  {
    assert (s + [e])[..|s + [e]| - 1] == s;
  }

  /** Every stored row keeps its name when the list is sorted and cut. */
  lemma FinishNames(s: seq<Entry>)
    requires NamesUnique(s)
    ensures NamesUnique(Finish(s))
  {
    SortNames(s);
  }

  /** A board of a win-counting game as every save leaves it: at most five
      rows, best first, one row per name, every row with at least one win. */
  predicate WinBoard(s: seq<Entry>) {
    && |s| <= MaxEntries
    && SortedDesc(s)
    && NamesUnique(s)
    && forall i :: 0 <= i < |s| ==> s[i].score >= 1
  }

  /** `SaveWin` keeps a win board a win board, whatever name is saved. */
  lemma SaveWinKeepsBoard(s: seq<Entry>, name: string)
    requires WinBoard(s)
    ensures WinBoard(SaveWin(s, name))
  {
    var added := AddWin(s, name);
    SaveWinNames(s, name);
    AddWinScores(s, name);
    var r := Finish(added);
    forall i | 0 <= i < |r| ensures r[i].score >= 1 {
      assert r[i] in multiset(added);
    }
  }

  /** Names that were unique stay unique through a win save. */
  lemma SaveWinNames(s: seq<Entry>, name: string)
    requires NamesUnique(s)
    ensures NamesUnique(SaveWin(s, name))
  {
    AddWinNames(s, name);
    FinishNames(AddWin(s, name));
  }

  /** `AddWin` leaves no row without a win. */
  lemma AddWinScores(s: seq<Entry>, name: string)
    requires forall i :: 0 <= i < |s| ==> s[i].score >= 1
    ensures forall x :: x in AddWin(s, name) ==> x.score >= 1
  {
  }

  /** `AddWin` keeps one row per name. */
  lemma AddWinNames(s: seq<Entry>, name: string)
    requires NamesUnique(s)
    ensures NamesUnique(AddWin(s, name))
  {
    var added := AddWin(s, name);
    match FindName(s, name)
    case Some(i) =>
      forall a, b | 0 <= a < b < |added| ensures added[a].name != added[b].name {
        if a != i && b != i { assert added[a] == s[a] && added[b] == s[b]; }
      }
    case None =>
      forall a, b | 0 <= a < b < |added| ensures added[a].name != added[b].name {
        if b < |s| { assert added[a] == s[a] && added[b] == s[b]; }
        else { assert added[a] == s[a]; }
      }
  }

  /** A name already on the board: its row gains exactly one win, every
      other row stays, and nothing is dropped. */
  lemma SaveWinKnown(s: seq<Entry>, name: string, i: nat)
    requires |s| <= MaxEntries
    requires i < |s| && s[i].name == name
    requires forall k :: 0 <= k < |s| && k != i ==> s[k].name != name
    ensures |SaveWin(s, name)| == |s|
    ensures multiset(SaveWin(s, name)) == multiset(s[i := Entry(name, s[i].score + 1)])
  {
    assert FindName(s, name) == Some(i);
    assert AddWin(s, name) == s[i := Entry(name, s[i].score + 1)];
  }

  /** A new name on a board with room: a row with one win joins, nothing
      else changes. */
  lemma SaveWinNewcomer(s: seq<Entry>, name: string)
    requires |s| < MaxEntries
    requires !HasName(s, name)
    ensures multiset(SaveWin(s, name)) == multiset(s) + multiset{Entry(name, 1)}
  {
  }

  /** A new name on a full win board never gets in: its one win ties at best
      with the last row, which came first. */
  lemma SaveWinFullBoard(s: seq<Entry>, name: string)
    requires WinBoard(s) && |s| == MaxEntries
    requires !HasName(s, name)
    ensures SaveWin(s, name) == s
  {
    var e := Entry(name, 1);
    SortAppended(s, e);
    SortSorted(s);
    InsertLowest(s, e);
  }

  /** A board of the coin flip as every save leaves it. */
  predicate StreakBoard(s: seq<Entry>) {
    |s| <= MaxEntries && SortedDesc(s) && NamesUnique(s)
  }

  /** `SaveStreak` keeps a streak board a streak board. */
  lemma SaveStreakKeepsBoard(s: seq<Entry>, name: string, streak: nat)
    requires StreakBoard(s)
    ensures StreakBoard(SaveStreak(s, name, streak))
  {
    SaveStreakNames(s, name, streak);
  }

  /** Names that were unique stay unique through a coin-flip save. */
  lemma SaveStreakNames(s: seq<Entry>, name: string, streak: nat)
    requires NamesUnique(s)
    ensures NamesUnique(SaveStreak(s, name, streak))
  {
    AddStreakNames(s, name, streak);
    FinishNames(AddStreak(s, name, streak));
  }

  /** `AddStreak` keeps one row per name. */
  lemma AddStreakNames(s: seq<Entry>, name: string, streak: nat)
    requires NamesUnique(s)
    ensures NamesUnique(AddStreak(s, name, streak))
  {
    var added := AddStreak(s, name, streak);
    match FindName(s, name)
    case Some(i) =>
      forall a, b | 0 <= a < b < |added| ensures added[a].name != added[b].name {
        if a != i && b != i { assert added[a] == s[a] && added[b] == s[b]; }
      }
    case None =>
      forall a, b | 0 <= a < b < |added| ensures added[a].name != added[b].name {
        if b < |s| { assert added[a] == s[a] && added[b] == s[b]; }
        else { assert added[a] == s[a]; }
      }
  }

  /** A name already on the board keeps the larger of its stored and its new
      streak; every other row stays and nothing is dropped. */
  lemma SaveStreakKnown(s: seq<Entry>, name: string, streak: nat, i: nat)
    requires |s| <= MaxEntries
    requires i < |s| && s[i].name == name
    requires forall k :: 0 <= k < |s| && k != i ==> s[k].name != name
    ensures |SaveStreak(s, name, streak)| == |s|
    ensures multiset(SaveStreak(s, name, streak))
            == multiset(s[i := Entry(name, if streak > s[i].score then streak else s[i].score)])
  {
    assert s[i := Entry(name, s[i].score)] == s;
    assert FindName(s, name) == Some(i);
  }

  /** A new name on a board with room is appended with its streak. */
  lemma SaveStreakNewcomer(s: seq<Entry>, name: string, streak: nat)
    requires |s| < MaxEntries
    requires !HasName(s, name)
    ensures multiset(SaveStreak(s, name, streak)) == multiset(s) + multiset{Entry(name, streak)}
  {
  }

  /** A new name enters a full streak board exactly when it beats the fifth
      row outright; a tie keeps the older row and leaves the board as it was. */
  lemma SaveStreakFullBoard(s: seq<Entry>, name: string, streak: nat)
    requires StreakBoard(s) && |s| == MaxEntries
    requires !HasName(s, name)
    ensures Entry(name, streak) in SaveStreak(s, name, streak) <==> streak > s[4].score
    ensures streak <= s[4].score ==> SaveStreak(s, name, streak) == s
  {
    var e := Entry(name, streak);
    var r := SaveStreak(s, name, streak);
    StreakNewcomerInserted(s, name, streak);
    if streak > s[4].score {
      InsertShape(s, e);
      var p := InsertPos(s, e);
      assert p < 5;
      assert r[p] == e;
    } else {
      InsertLowest(s, e);
      assert Take(s + [e], MaxEntries) == s;
      assert forall i :: 0 <= i < |s| ==> s[i] != e;
    }
  }

  /** On a sorted board, a new name's save is one insertion and the cut. */
  lemma StreakNewcomerInserted(s: seq<Entry>, name: string, streak: nat)
    requires SortedDesc(s)
    requires !HasName(s, name)
    ensures SaveStreak(s, name, streak) == Take(Insert(s, Entry(name, streak)), MaxEntries)
  {
    var e := Entry(name, streak);
    assert AddStreak(s, name, streak) == s + [e];
    SortAppended(s, e);
    SortSorted(s);
  }

  /** Two coin-flip saves by one name keep the higher streak. */
  lemma StreakScenarioLowerIgnored()
    ensures SaveStreak(SaveStreak([], "Ann", 5), "Ann", 3) == [Entry("Ann", 5)]
  {
    assert SaveStreak([], "Ann", 5) == [Entry("Ann", 5)];
  }

  /** A new name whose streak is no better than any stored row, on a sorted
      board with room, goes to the bottom. */
  lemma SaveStreakLowest(s: seq<Entry>, name: string, streak: nat)
    requires SortedDesc(s) && |s| < MaxEntries
    requires !HasName(s, name)
    requires forall i :: 0 <= i < |s| ==> s[i].score >= streak
    ensures SaveStreak(s, name, streak) == s + [Entry(name, streak)]
  {
    var e := Entry(name, streak);
    SortAppended(s, e);
    SortSorted(s);
    InsertLowest(s, e);
  }

  /** A run of coin-flip saves, one per row of `es`, in order. */
  function SaveAll(s: seq<Entry>, es: seq<Entry>): seq<Entry>
    decreases |es|
  {
    if es == [] then s else SaveAll(SaveStreak(s, es[0].name, es[0].score), es[1..])
  }

  /** Saving new names in falling streak order onto a board with room
      appends them in that order: each is the lowest so far. */
  lemma {:induction false} SaveAllAppends(b: seq<Entry>, k: nat)
    requires StreakBoard(b) && k <= |b|
    decreases |b| - k
    ensures SaveAll(b[..k], b[k..]) == b
  {
    if k == |b| {
      assert b[..k] == b;
    } else {
      var rest := b[k..];
      assert rest[0] == b[k] && rest[1..] == b[k + 1..];
      SaveFirstAppends(b, k);
      assert SaveAll(b[..k], rest) == SaveAll(b[..k + 1], b[k + 1..]);
      SaveAllAppends(b, k + 1);
    }
  }

  /** The save of row `k` onto the rows before it appends that row. */
  lemma SaveFirstAppends(b: seq<Entry>, k: nat)
    requires StreakBoard(b) && k < |b|
    ensures SaveStreak(b[..k], b[k].name, b[k].score) == b[..k + 1]
  {
    var s, e := b[..k], b[k];
    assert forall i :: 0 <= i < k ==> s[i] == b[i];
    forall x | x in s ensures x.name != e.name && x.score >= e.score {
      var i :| 0 <= i < k && s[i] == x;
      assert b[i] == x;
    }
    assert SortedDesc(s);
    PrefixSnoc(b, k);
    FillStep(s, e.name, e.score);
  }

  lemma PrefixSnoc(b: seq<Entry>, k: nat)
    requires k < |b|
    ensures b[..k + 1] == b[..k] + [Entry(b[k].name, b[k].score)]
  {
  }

  /** One save of `SaveAllAppends`: a new name scoring no more than any
      stored row is appended. */
  lemma FillStep(s: seq<Entry>, name: string, streak: nat)
    requires SortedDesc(s) && |s| < MaxEntries
    requires forall x :: x in s ==> x.name != name && x.score >= streak
    ensures SaveStreak(s, name, streak) == s + [Entry(name, streak)]
  {
    assert forall i :: 0 <= i < |s| ==> s[i] in s;
    SaveStreakLowest(s, name, streak);
  }

  /** Five different names saved with falling streaks 10, 9, 8, 7, 6 on an
      empty board fill it in that order. */
  lemma StreakScenarioFill(n1: string, n2: string, n3: string, n4: string, n5: string)
    requires n1 != n2 && n1 != n3 && n1 != n4 && n1 != n5
    requires n2 != n3 && n2 != n4 && n2 != n5
    requires n3 != n4 && n3 != n5 && n4 != n5
    ensures var five := [Entry(n1, 10), Entry(n2, 9), Entry(n3, 8), Entry(n4, 7), Entry(n5, 6)];
      SaveAll([], five) == five
  {
    var five := [Entry(n1, 10), Entry(n2, 9), Entry(n3, 8), Entry(n4, 7), Entry(n5, 6)];
    assert five[..0] == [] && five[0..] == five;
    SaveAllAppends(five, 0);
  }

  /** Six different names saved with falling streaks 10, 9, 8, 7, 6, 5:
      the board the first five leave (`StreakScenarioFill`) does not admit the
      sixth. */
  lemma StreakScenarioCut(n1: string, n2: string, n3: string, n4: string, n5: string, n6: string)
    requires n1 != n2 && n1 != n3 && n1 != n4 && n1 != n5 && n1 != n6
    requires n2 != n3 && n2 != n4 && n2 != n5 && n2 != n6
    requires n3 != n4 && n3 != n5 && n3 != n6
    requires n4 != n5 && n4 != n6 && n5 != n6
    ensures
      var full := [Entry(n1, 10), Entry(n2, 9), Entry(n3, 8), Entry(n4, 7), Entry(n5, 6)];
      SaveStreak(full, n6, 5) == full
  {
    SaveStreakFullBoard([Entry(n1, 10), Entry(n2, 9), Entry(n3, 8), Entry(n4, 7), Entry(n5, 6)], n6, 5);
  }
}
