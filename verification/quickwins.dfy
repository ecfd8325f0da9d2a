/**
 * getQuickWins of lib/scoring.ts: rank the categories by score with a
 * stable descending sort, offer one item from the pool of the worst
 * category (score above 50) and one from the runner-up (score above 40),
 * and always close with the universal deep-breath item. The random choice
 * within a pool is an index parameter; items are identified by pool and
 * position, their display text is not modelled.
 */
module QuickWins {
  import opened Questions
  import opened Scoring

  datatype QuickWin = Pick(category: Category, slot: nat) | DeepBreath

  /** Every category pool holds three items. */
  const PoolSize: nat := 3

  /** The pool of category c. */
  function Pool(c: Category): (pool: seq<QuickWin>)
    ensures |pool| == PoolSize
    ensures forall i :: 0 <= i < |pool| ==> pool[i] == Pick(c, i)
  {
    [Pick(c, 0), Pick(c, 1), Pick(c, 2)]
  }

  /** Position of c among the keys em, pe, ph, or, im of a score record. */
  function KeyIndex(c: Category): (k: nat)
    ensures k < |AllCategories| && AllCategories[k] == c
  {
    match c
    case Em => 0
    case Pe => 1
    case Ph => 2
    case Or => 3
    case Im => 4
  }

  /** a comes before b after a stable sort by descending score: a higher
      score first, ties in key order. */
  predicate Precedes(s: CategoryScores, a: Category, b: Category) {
    s.Get(a) > s.Get(b) || (s.Get(a) == s.Get(b) && KeyIndex(a) < KeyIndex(b))
  }

  predicate Ordered(s: CategoryScores, cs: seq<Category>) {
    forall i, j :: 0 <= i < j < |cs| ==> Precedes(s, cs[i], cs[j])
  }

  /** Categories listed in strictly increasing key order. */
  predicate InKeyOrder(cs: seq<Category>) {
    forall i, j :: 0 <= i < j < |cs| ==> KeyIndex(cs[i]) < KeyIndex(cs[j])
  }

  /** Insertion step of the stable sort: x goes after every element that
      scores at least as high. */
  function Insert(s: CategoryScores, x: Category, sorted: seq<Category>): (r: seq<Category>)
    ensures multiset(r) == multiset(sorted) + multiset{x}
    decreases |sorted|
  {
    if |sorted| == 0 then [x]
    else if s.Get(sorted[0]) >= s.Get(x) then
      assert sorted == [sorted[0]] + sorted[1..];
      [sorted[0]] + Insert(s, x, sorted[1..])
    else [x] + sorted
  }

  /** The stable descending sort of `Object.entries(scores)` by score,
      as an insertion sort over the entries in key order. */
  function SortByScore(s: CategoryScores, cs: seq<Category>): (r: seq<Category>)
    ensures multiset(r) == multiset(cs)
  {
    if |cs| == 0 then []
    else
      assert cs == cs[..|cs| - 1] + [cs[|cs| - 1]];
      Insert(s, cs[|cs| - 1], SortByScore(s, cs[..|cs| - 1]))
  }

  lemma {:induction false} InsertKeepsOrder(s: CategoryScores, x: Category, sorted: seq<Category>)
    requires Ordered(s, sorted)
    requires forall i :: 0 <= i < |sorted| ==> KeyIndex(sorted[i]) < KeyIndex(x)
    ensures Ordered(s, Insert(s, x, sorted))
    decreases |sorted|
  {
    if |sorted| > 0 && s.Get(sorted[0]) >= s.Get(x) {
      var rest := sorted[1..];
      InsertKeepsOrder(s, x, rest);
      var r := Insert(s, x, sorted);
      var tail := Insert(s, x, rest);
      assert r == [sorted[0]] + tail;
      forall j | 0 < j < |r|
        ensures Precedes(s, r[0], r[j])
      {
        assert r[j] in multiset(tail);
        assert r[j] in multiset(rest) || r[j] == x;
        if r[j] != x {
          var k :| 0 <= k < |rest| && rest[k] == r[j];
          assert sorted[k + 1] == r[j];
        }
      }
    } else if |sorted| > 0 {
      var r := Insert(s, x, sorted);
      assert r == [x] + sorted;
      forall j | 0 < j < |r|
        ensures Precedes(s, r[0], r[j])
      {
        if j > 1 {
          assert Precedes(s, sorted[0], sorted[j - 1]);
        }
      }
    }
  }

  /** On entries in key order the sort yields the unique arrangement in which
      every category precedes the ones after it. */
  lemma {:induction false} SortIsOrdered(s: CategoryScores, cs: seq<Category>)
    requires InKeyOrder(cs)
    ensures Ordered(s, SortByScore(s, cs))
  {
    if |cs| > 0 {
      var init, x := cs[..|cs| - 1], cs[|cs| - 1];
      SortIsOrdered(s, init);
      var sorted := SortByScore(s, init);
      forall i | 0 <= i < |sorted|
        ensures KeyIndex(sorted[i]) < KeyIndex(x)
      {
        assert sorted[i] in multiset(init);
        var k :| 0 <= k < |init| && init[k] == sorted[i];
      }
      InsertKeepsOrder(s, x, sorted);
    }
  }

  lemma EveryCategoryListed(c: Category)
    ensures c in AllCategories
  {
    assert AllCategories[KeyIndex(c)] == c;
  }

  /** The categories ranked worst first. */
  function Ranking(s: CategoryScores): (r: seq<Category>)
    ensures |r| == |AllCategories|
    ensures forall c: Category :: c in r
    ensures Ordered(s, r)
  {
    var r := SortByScore(s, AllCategories);
    assert |r| == |multiset(r)| == |multiset(AllCategories)| == |AllCategories|;
    SortIsOrdered(s, AllCategories);
    forall c: Category ensures c in r {
      EveryCategoryListed(c);
      assert c in multiset(AllCategories);
    }
    r
  }

  /** c precedes every other category. */
  predicate IsTop(s: CategoryScores, c: Category) {
    forall d: Category :: d != c ==> Precedes(s, c, d)
  }

  /** c precedes every category other than itself and `top`. */
  predicate IsSecond(s: CategoryScores, c: Category, top: Category) {
    c != top && forall d: Category :: d != c && d != top ==> Precedes(s, c, d)
  }

  lemma RankingTop(s: CategoryScores)
    ensures IsTop(s, Ranking(s)[0])
  {
    var r := Ranking(s);
    forall d: Category | d != r[0] ensures Precedes(s, r[0], d) {
      var j :| 0 <= j < |r| && r[j] == d;
    }
  }

  lemma RankingSecond(s: CategoryScores)
    ensures IsSecond(s, Ranking(s)[1], Ranking(s)[0])
  {
    var r := Ranking(s);
    assert Precedes(s, r[0], r[1]);
    forall d: Category | d != r[1] && d != r[0] ensures Precedes(s, r[1], d) {
      var j :| 0 <= j < |r| && r[j] == d;
      assert 1 < j;
      assert Precedes(s, r[1], r[j]);
    }
  }

  /** sortedCategories[0]: the highest-scoring category, the first in key order on a tie. */
  function Top(s: CategoryScores): (c: Category)
    ensures IsTop(s, c)
  {
    RankingTop(s);
    Ranking(s)[0]
  }

  /** sortedCategories[1]: the best of the rest. */
  function Second(s: CategoryScores): (c: Category)
    ensures IsSecond(s, c, Top(s))
  {
    RankingSecond(s);
    Ranking(s)[1]
  }

  /** Array.prototype.slice(0, n). */
  function Take<T>(xs: seq<T>, n: nat): (r: seq<T>)
    ensures |r| == if |xs| <= n then |xs| else n
    ensures forall i :: 0 <= i < |r| ==> r[i] == xs[i]
  {
    if |xs| <= n then xs else xs[..n]
  }

  /** The list built before the final slice(0, 3). */
  function Candidates(s: CategoryScores, topPick: nat, secondPick: nat): (wins: seq<QuickWin>)
    requires topPick < PoolSize && secondPick < PoolSize
    ensures 1 <= |wins| <= 3 && wins[|wins| - 1] == DeepBreath
  {
    var top, second := Top(s), Second(s);
    var first: seq<QuickWin> := if s.Get(top) > 50.0 then [Pool(top)[topPick]] else [];
    var next: seq<QuickWin> := if s.Get(second) > 40.0 then [Pool(second)[secondPick]] else [];
    first + next + [DeepBreath]
  }

  /** getQuickWins, with Math.random's choice within a pool given as the
      indices topPick and secondPick. */
  function GetQuickWins(s: CategoryScores, topPick: nat, secondPick: nat): (wins: seq<QuickWin>)
    requires topPick < PoolSize && secondPick < PoolSize
    ensures |wins| == 1 + (if s.Get(Top(s)) > 50.0 then 1 else 0) + (if s.Get(Second(s)) > 40.0 then 1 else 0)
    ensures wins[|wins| - 1] == DeepBreath
    ensures forall i :: 0 <= i < |wins| - 1 ==> wins[i].Pick?
    ensures s.Get(Top(s)) > 50.0 ==> wins[0] == Pool(Top(s))[topPick]
    ensures s.Get(Second(s)) > 40.0 ==> wins[|wins| - 2] == Pool(Second(s))[secondPick]
  {
    Take(Candidates(s, topPick, secondPick), 3)
  }

  /** The ranking order is a strict order: never both ways round. */
  lemma PrecedesAsymmetric(s: CategoryScores, a: Category, b: Category)
    ensures Precedes(s, a, b) ==> !Precedes(s, b, a)
  {
  }

  /** Whatever the sort algorithm, a stable descending sort leaves the same
      category first: the only one that precedes all others. */
  lemma TopIsUnique(s: CategoryScores, c: Category)
    requires IsTop(s, c)
    ensures c == Top(s)
  {
    PrecedesAsymmetric(s, c, Top(s));
  }

  /** Likewise the second place is determined by the order alone. */
  lemma SecondIsUnique(s: CategoryScores, c: Category)
    requires IsSecond(s, c, Top(s))
    ensures c == Second(s)
  {
    PrecedesAsymmetric(s, c, Second(s));
  }

  /** On equal scores the sort keeps key order: em first, then pe. */
  lemma TiesKeepKeyOrder(s: CategoryScores)
    requires s.em == s.pe == s.ph == s.or == s.im
    ensures Top(s) == Em && Second(s) == Pe
  {
    TopIsUnique(s, Em);
    SecondIsUnique(s, Pe);
  }

  /** The final slice(0, 3) never cuts anything off, so there are always 1
      to 3 quick wins. */
  lemma SliceNeverTruncates(s: CategoryScores, topPick: nat, secondPick: nat)
    requires topPick < PoolSize && secondPick < PoolSize
    ensures GetQuickWins(s, topPick, secondPick) == Candidates(s, topPick, secondPick)
    ensures 1 <= |GetQuickWins(s, topPick, secondPick)| <= 3
  {
  }

  /** Every category-specific quick win comes from the pool of the worst
      category scoring above 50 or of the runner-up scoring above 40. */
  lemma PicksComeFromWorstCategories(s: CategoryScores, topPick: nat, secondPick: nat, i: nat)
    requires topPick < PoolSize && secondPick < PoolSize
    requires i < |GetQuickWins(s, topPick, secondPick)|
    ensures var w := GetQuickWins(s, topPick, secondPick)[i];
      w.Pick? ==>
        (w.category == Top(s) && s.Get(Top(s)) > 50.0) || (w.category == Second(s) && s.Get(Second(s)) > 40.0)
  {
  }

  /** Below both thresholds only the universal item is offered. */
  lemma OnlyDeepBreathWhenMild(s: CategoryScores, topPick: nat, secondPick: nat)
    requires topPick < PoolSize && secondPick < PoolSize
    requires forall c: Category :: s.Get(c) <= 40.0
    ensures GetQuickWins(s, topPick, secondPick) == [DeepBreath]
  {
    assert s.Get(Top(s)) <= 40.0 && s.Get(Second(s)) <= 40.0;
  }
}
