/** The photo gallery's list logic: the pictures are shuffled once, filtered
    by category, and a full-size viewer steps through the filtered list. */
module Gallery {
  import opened Wrappers

  /** A picture; its file is left out. */
  datatype Image = Image(id: int, alt: string, category: string)

  /** The filter that shows every picture ("All"). */
  const AllCategory: string := "Все"

  // ---------------------------------------------------------------------
  // Fisher-Yates shuffle
  // ---------------------------------------------------------------------

  /** `shuffleArray`. Working on a copy, for `i` from the last index down to
      1 it swaps position `i` with position `draws[i]`, the random index
      `Math.floor(Math.random() * (i + 1))`, which lies in `0..i`. */
  method Shuffle<T>(a: seq<T>, draws: seq<nat>) returns (r: seq<T>)
    requires |draws| == |a|
    requires forall i :: 0 < i < |a| ==> draws[i] <= i
    ensures |r| == |a|
    ensures multiset(r) == multiset(a)
    ensures |a| > 1 ==> r[|a| - 1] == a[draws[|a| - 1]]
    ensures (forall i :: 0 < i < |a| ==> draws[i] == i) ==> r == a
  {
    r := a;
    var i := |a| - 1;
    while i > 0
      invariant -1 <= i < |a|
      invariant |r| == |a|
      invariant multiset(r) == multiset(a)
      invariant |a| > 1 && i < |a| - 1 ==> r[|a| - 1] == a[draws[|a| - 1]]
      invariant |a| > 0 && i == |a| - 1 ==> r == a
      invariant (forall k :: 0 < k < |a| ==> draws[k] == k) ==> r == a
      decreases i
    {
      var j := draws[i];
      r := Swap(r, i, j);
      i := i - 1;
    }
  }

  /** `[s[i], s[j]] = [s[j], s[i]]`. */
  function Swap<T>(s: seq<T>, i: nat, j: nat): (r: seq<T>)
    requires i < |s| && j < |s|
    ensures |r| == |s|
    ensures r[i] == s[j] && r[j] == s[i]
    ensures forall k :: 0 <= k < |s| && k != i && k != j ==> r[k] == s[k]
    ensures multiset(r) == multiset(s)
  {
    s[i := s[j]][j := s[i]]
  }

  // ---------------------------------------------------------------------
  // Filtering and navigation
  // ---------------------------------------------------------------------

  /** `images.filter(img => img.category === cat)`. */
  function InCategory(imgs: seq<Image>, cat: string): (r: seq<Image>)
    ensures |r| <= |imgs|
    ensures forall x :: x in r <==> x in imgs && x.category == cat
    ensures forall x :: multiset(r)[x] == if x.category == cat then multiset(imgs)[x] else 0
  {
    FilterCounts(imgs, cat);
    Filter(imgs, cat)
  }

  /** The filter, picture by picture from the front. */
  function Filter(imgs: seq<Image>, cat: string): seq<Image> {
    if imgs == [] then []
    else (if imgs[0].category == cat then [imgs[0]] else []) + Filter(imgs[1..], cat)
  }

  /** The filter keeps each picture of the category as often as the input
      has it, and no other picture. */
  lemma {:induction false} FilterCounts(imgs: seq<Image>, cat: string)
    ensures |Filter(imgs, cat)| <= |imgs|
    ensures forall x :: multiset(Filter(imgs, cat))[x] == if x.category == cat then multiset(imgs)[x] else 0
  {
    if imgs != [] {
      var t := imgs[1..];
      FilterCounts(t, cat);
      assert imgs == [imgs[0]] + t;
      assert Filter(imgs, cat) == (if imgs[0].category == cat then [imgs[0]] else []) + Filter(t, cat);
      assert multiset(imgs) == multiset{imgs[0]} + multiset(t);
    }
  }

  /** `filteredImages`: the whole shuffled list under "All", otherwise the
      pictures of the chosen category in shuffled order. */
  function Visible(shuffled: seq<Image>, active: string): (r: seq<Image>)
    ensures active == AllCategory ==> r == shuffled
    ensures active != AllCategory ==>
              forall x :: x in r <==> x in shuffled && x.category == active
    ensures active != AllCategory ==>
              forall x :: multiset(r)[x] == if x.category == active then multiset(shuffled)[x] else 0
    ensures |r| <= |shuffled|
  {
    if active == AllCategory then shuffled else InCategory(shuffled, active)
  }

  /** The filter keeps the input order: filtering a concatenation filters
      each part and keeps them in that order. */
  lemma InCategoryAppend(a: seq<Image>, b: seq<Image>, cat: string)
    ensures InCategory(a + b, cat) == InCategory(a, cat) + InCategory(b, cat)
  {
    FilterAppend(a, b, cat);
  }

  lemma {:induction false} FilterAppend(a: seq<Image>, b: seq<Image>, cat: string)
    ensures Filter(a + b, cat) == Filter(a, cat) + Filter(b, cat)
  {
    if a == [] {
      assert a + b == b;
    } else {
      var ab, t := a + b, a[1..];
      assert ab[0] == a[0] && ab[1..] == t + b;
      FilterAppend(t, b, cat);
      var h := if a[0].category == cat then [a[0]] else [];
      var ft, fb := Filter(t, cat), Filter(b, cat);
      assert Filter(ab, cat) == h + (ft + fb);
      assert Filter(a, cat) == h + ft;
      assert h + (ft + fb) == (h + ft) + fb;
    }
  }

  /** A list whose pictures all belong to the category passes unchanged, in
      its own order. */
  lemma InCategoryAll(imgs: seq<Image>, cat: string)
    requires forall i :: 0 <= i < |imgs| ==> imgs[i].category == cat
    ensures InCategory(imgs, cat) == imgs
  {
    FilterAll(imgs, cat);
  }

  lemma {:induction false} FilterAll(imgs: seq<Image>, cat: string)
    requires forall i :: 0 <= i < |imgs| ==> imgs[i].category == cat
    ensures Filter(imgs, cat) == imgs
  {
    if imgs != [] {
      FilterAll(imgs[1..], cat);
      assert imgs == [imgs[0]] + imgs[1..];
    }
  }

  /** The shown list keeps the shuffled order, under every filter. */
  lemma VisibleAppend(a: seq<Image>, b: seq<Image>, active: string)
    ensures Visible(a + b, active) == Visible(a, active) + Visible(b, active)
  {
    if active != AllCategory {
      InCategoryAppend(a, b, active);
    }
  }

  /** `findIndex(img => img.id === id)`. */
  function FindId(f: seq<Image>, id: int): (r: int)
    ensures -1 <= r < |f|
    ensures r >= 0 ==> f[r].id == id && forall k :: 0 <= k < r ==> f[k].id != id
    ensures r == -1 <==> forall k :: 0 <= k < |f| ==> f[k].id != id
  {
    if f == [] then -1
    else if f[0].id == id then 0
    else
      var r := FindId(f[1..], id);
      if r == -1 then -1 else r + 1
  }

  /** `currentIndex`: where the selected picture stands in the filtered
      list, or -1 when nothing is selected or it is not in the list. */
  function CurrentIndex(f: seq<Image>, sel: Option<Image>): (r: int)
    ensures -1 <= r < |f|
    ensures r >= 0 ==> sel.Some? && f[r].id == sel.value.id
                       && forall k :: 0 <= k < r ==> f[k].id != sel.value.id
    ensures r == -1 <==> sel.None? || forall k :: 0 <= k < |f| ==> f[k].id != sel.value.id
  {
    match sel
    case None => -1
    case Some(img) => FindId(f, img.id)
  }

  /** `goToPrevious`: one picture back, unless at the first (or lost). */
  function Previous(f: seq<Image>, sel: Option<Image>): (r: Option<Image>)
    ensures r == sel || (r.Some? && r.value in f)
    ensures CurrentIndex(f, sel) <= 0 ==> r == sel
    ensures CurrentIndex(f, sel) > 0 ==> r == Some(f[CurrentIndex(f, sel) - 1])
  {
    var i := CurrentIndex(f, sel);
    if i > 0 then Some(f[i - 1]) else sel
  }

  /** `goToNext`: one picture on, unless at the last. From index -1 (nothing
      selected, or the selection not in the list) this opens the first. */
  function Next(f: seq<Image>, sel: Option<Image>): (r: Option<Image>)
    ensures r == sel || (r.Some? && r.value in f)
    ensures CurrentIndex(f, sel) == |f| - 1 ==> r == sel
    ensures CurrentIndex(f, sel) < |f| - 1 ==> r == Some(f[CurrentIndex(f, sel) + 1])
  {
    var i := CurrentIndex(f, sel);
    if i < |f| - 1 then Some(f[i + 1]) else sel
  }

  datatype Key = ArrowLeft | ArrowRight | Escape | OtherKey

  /** `handleKeyDown`: the arrows step, Escape closes the viewer. */
  function HandleKey(f: seq<Image>, sel: Option<Image>, k: Key): (r: Option<Image>)
    ensures k == Escape ==> r == None
    ensures k == OtherKey ==> r == sel
    ensures k == ArrowLeft ==> r == Previous(f, sel)
    ensures k == ArrowRight ==> r == Next(f, sel)
  {
    match k
    case ArrowLeft => Previous(f, sel)
    case ArrowRight => Next(f, sel)
    case Escape => None
    case OtherKey => sel
  }

  // ---------------------------------------------------------------------
  // Properties of navigation
  // ---------------------------------------------------------------------

  /** Ids are unique in the list. */
  predicate UniqueIds(f: seq<Image>) {
    forall i, j :: 0 <= i < j < |f| ==> f[i].id != f[j].id
  }

  /** With unique ids, stepping on moves the index by exactly one, and
      stepping back from there returns to the picture left. */
  lemma NextThenPrevious(f: seq<Image>, sel: Option<Image>)
    requires UniqueIds(f)
    requires sel.Some? && sel.value in f
    requires CurrentIndex(f, sel) < |f| - 1
    ensures CurrentIndex(f, Next(f, sel)) == CurrentIndex(f, sel) + 1
    ensures Previous(f, Next(f, sel)) == sel
  {
    var i := CurrentIndex(f, sel);
    var k :| 0 <= k < |f| && f[k] == sel.value;
    assert i == k;
  }

  /** With unique ids, stepping back moves the index by exactly one. */
  lemma PreviousMovesBack(f: seq<Image>, sel: Option<Image>)
    requires UniqueIds(f)
    requires CurrentIndex(f, sel) > 0
    ensures CurrentIndex(f, Previous(f, sel)) == CurrentIndex(f, sel) - 1
  {
  }

  /** The arrow-right quirk: with nothing selected, it opens the first
      picture of a non-empty list; arrow-left does nothing. */
  lemma ArrowsWithNothingSelected(f: seq<Image>)
    requires |f| > 0
    ensures HandleKey(f, None, ArrowRight) == Some(f[0])
    ensures HandleKey(f, None, ArrowLeft) == None
  {
  }
}
