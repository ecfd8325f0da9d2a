/**
 * The scoring pipeline of lib/scoring.ts: raw answers to category scores,
 * category scores to the composite ABO index, and the index to a burnout
 * level. Scores are exact reals; JavaScript doubles are not modelled.
 */
module Scoring {
  import opened Optional
  import opened Questions

  /** CategoryScores: one 0..100 score per category, in key order em, pe, ph, or, im. */
  datatype CategoryScores = CategoryScores(em: real, pe: real, ph: real, or: real, im: real) {
    function Get(c: Category): real {
      match c
      case Em => em
      case Pe => pe
      case Ph => ph
      case Or => or
      case Im => im
    }
  }

  datatype Level = Safe | Caution | Warning | Danger

  /** Position of a level in the order safe < caution < warning < danger. */
  function Rank(l: Level): nat {
    match l
    case Safe => 0
    case Caution => 1
    case Warning => 2
    case Danger => 3
  }

  datatype Demographics = Demographics(gender: Option<string>, ageGroup: Option<string>)

  datatype AssessmentResult = AssessmentResult(
    categoryScores: CategoryScores,
    aboIndex: int,
    level: Level,
    timestamp: string,
    demographics: Option<Demographics>)

  /** The scoring code's own id -> category map, written out apart from the
      question table. */
  const QuestionCategories: map<int, Category> := map[
    1 := Em, 2 := Em, 3 := Em, 4 := Em, 5 := Em, 6 := Em, 7 := Em,
    8 := Em, 9 := Em, 10 := Em, 11 := Em, 12 := Em, 13 := Em, 14 := Em,
    15 := Pe, 16 := Pe, 17 := Pe, 18 := Pe,
    19 := Ph, 20 := Ph, 21 := Ph, 22 := Ph, 23 := Ph, 24 := Ph,
    25 := Or, 26 := Or, 27 := Or, 28 := Or, 29 := Or, 30 := Or,
    31 := Or, 32 := Or, 33 := Or, 34 := Or, 35 := Or,
    36 := Im, 37 := Im, 38 := Im, 39 := Im
  ]

  /** The reverse-scored items. */
  const ReversedQuestions: seq<int> := [12, 14]

  /** Highest item id; the category map covers exactly 1..LastItem. */
  const LastItem: nat := 39

  /** The value an answer contributes to its category: on the 5-point scale
      a reverse-scored item counts as 6 - score. */
  function AdjustedScore(id: int, score: int): int {
    if id in ReversedQuestions then 6 - score else score
  }

  /** Reverse scoring mirrors an answer around the middle of the scale, so
      an answer on the 1..5 scale stays on it. */
  lemma AdjustedScoreMirrors(id: int, score: int)
    ensures 1 <= score <= 5 ==> 1 <= AdjustedScore(id, score) <= 5
    ensures id in ReversedQuestions ==> AdjustedScore(id, score) - 3 == 3 - score
    ensures id !in ReversedQuestions ==> AdjustedScore(id, score) == score
  {
  }

  /** Sum and number of the adjusted answers collected for one category. */
  datatype Tally = Tally(total: int, count: nat)

  /** The tally of category c over the answered ids 1..n that are also in
      `seen`: the reference definition of what the aggregation loop collects
      once it has visited the keys in `seen`. */
  function CategoryTally(answers: map<int, int>, c: Category, seen: set<int>, n: nat): Tally {
    if n == 0 then Tally(0, 0)
    else
      var t := CategoryTally(answers, c, seen, n - 1);
      if n in seen && n in answers && n in QuestionCategories && QuestionCategories[n] == c
      then Tally(t.total + AdjustedScore(n, answers[n]), t.count + 1)
      else t
  }

  /** The mean of a tally rescaled from the 1..5 range to 0..100; a category
      with no answers scores 0. */
  function RescaledAverage(t: Tally): (r: real)
    ensures t.count == 0 ==> r == 0.0
    ensures t.count > 0 && t.count <= t.total <= 5 * t.count ==> 0.0 <= r <= 100.0
  {
    if t.count > 0 then
      var average := t.total as real / t.count as real;
      assert t.count <= t.total <= 5 * t.count ==> 1.0 <= average <= 5.0 by {
        if t.count <= t.total <= 5 * t.count {
          AverageOnScale(t.total, t.count);
        }
      }
      ((average - 1.0) / 4.0) * 100.0
    else 0.0
  }

  /** A mean of values on the 1..5 scale is on the scale. */
  lemma AverageOnScale(total: int, count: int)
    requires 0 < count <= total <= 5 * count
    ensures 1.0 <= total as real / count as real <= 5.0
  {
    var t, c := total as real, count as real;
    var average := t / c;
    assert average * c == t;
    if average < 1.0 {
      PositiveProduct(1.0 - average, c);
      assert false;
    }
    if average > 5.0 {
      PositiveProduct(average - 5.0, c);
      assert false;
    }
  }

  lemma PositiveProduct(x: real, y: real)
    requires x > 0.0 && y > 0.0
    ensures x * y > 0.0
  {
  }

  /** calculateScores, with every answer key taken into account. */
  function CalculateScores(answers: map<int, int>): CategoryScores {
    var keys := answers.Keys;
    CategoryScores(
      RescaledAverage(CategoryTally(answers, Em, keys, LastItem)),
      RescaledAverage(CategoryTally(answers, Pe, keys, LastItem)),
      RescaledAverage(CategoryTally(answers, Ph, keys, LastItem)),
      RescaledAverage(CategoryTally(answers, Or, keys, LastItem)),
      RescaledAverage(CategoryTally(answers, Im, keys, LastItem)))
  }

  /** One category's score, read off the record. */
  lemma CategoryScore(answers: map<int, int>, c: Category)
    ensures CalculateScores(answers).Get(c) == RescaledAverage(CategoryTally(answers, c, answers.Keys, LastItem))
  {
  }

  lemma CategoryKeysAreItemIds(id: int)
    ensures id in QuestionCategories <==> 1 <= id <= LastItem
  {
  }

  /** Before any key is visited every tally is empty. */
  lemma {:induction false} TallyOfNothing(answers: map<int, int>, c: Category, n: nat)
    ensures CategoryTally(answers, c, {}, n) == Tally(0, 0)
  {
    if n > 0 {
      TallyOfNothing(answers, c, n - 1);
    }
  }

  /** Visiting one more key changes the tally of a category exactly when the
      key is a known item of that category. */
  lemma {:induction false} TallyVisit(answers: map<int, int>, c: Category, seen: set<int>, k: int, n: nat)
    requires k !in seen && k in answers
    ensures var t := CategoryTally(answers, c, seen, n);
      CategoryTally(answers, c, seen + {k}, n) ==
        if 1 <= k <= n && k in QuestionCategories && QuestionCategories[k] == c
        then Tally(t.total + AdjustedScore(k, answers[k]), t.count + 1)
        else t
  {
    if n > 0 {
      TallyVisit(answers, c, seen, k, n - 1);
    }
  }

  /** A non-empty key set has a member. */
  lemma SomeKey(s: set<int>) returns (w: int)
    requires s != {}
    ensures w in s
  {
    if forall k :: k !in s {
      assert false;
    }
    w :| w in s;
  }

  /** The aggregation loop of calculateScores: visits the answer entries in
      whatever order, skips ids with no category, collects each adjusted
      answer in its category, then averages and rescales. */
  method CalculateScoresByEntries(answers: map<int, int>) returns (scores: CategoryScores)
    ensures scores == CalculateScores(answers)
  {
    var totals: map<Category, Tally> :=
      map[Em := Tally(0, 0), Pe := Tally(0, 0), Ph := Tally(0, 0), Or := Tally(0, 0), Im := Tally(0, 0)];
    var remaining := answers.Keys;
    ghost var seen: set<int> := {};
    forall c: Category ensures c in totals && totals[c] == CategoryTally(answers, c, seen, LastItem) {
      TallyOfNothing(answers, c, LastItem);
      match c { case Em => case Pe => case Ph => case Or => case Im => }
    }
    while remaining != {}
      invariant remaining <= answers.Keys
      invariant seen == answers.Keys - remaining
      invariant forall c: Category :: c in totals && totals[c] == CategoryTally(answers, c, seen, LastItem)
      decreases remaining
    {
      ghost var w := SomeKey(remaining);
      var id :| id in remaining;
      forall c: Category
        ensures CategoryTally(answers, c, seen + {id}, LastItem) ==
          if id in QuestionCategories && QuestionCategories[id] == c
          then Tally(totals[c].total + AdjustedScore(id, answers[id]), totals[c].count + 1)
          else totals[c]
      {
        TallyVisit(answers, c, seen, id, LastItem);
        CategoryKeysAreItemIds(id);
      }
      if id in QuestionCategories {
        var c := QuestionCategories[id];
        totals := totals[c := Tally(totals[c].total + AdjustedScore(id, answers[id]), totals[c].count + 1)];
      }
      remaining := remaining - {id};
      seen := seen + {id};
    }
    assert seen == answers.Keys;
    scores := CategoryScores(
      RescaledAverage(totals[Em]), RescaledAverage(totals[Pe]), RescaledAverage(totals[Ph]),
      RescaledAverage(totals[Or]), RescaledAverage(totals[Im]));
  }

  /** Answers are on the 5-point scale. */
  predicate AnswersOnScale(answers: map<int, int>) {
    forall id :: id in answers ==> 1 <= answers[id] <= 5
  }

  /** The answers to the survey's own items, everything else dropped. */
  function RestrictToItems(answers: map<int, int>): (r: map<int, int>)
    ensures forall id :: id in r <==> id in answers && 1 <= id <= LastItem
    ensures forall id :: id in r ==> r[id] == answers[id]
  {
    map id | id in answers && 1 <= id <= LastItem :: answers[id]
  }

  /** Two answer maps that agree on items 1..n produce the same tallies. */
  lemma {:induction false} TallyDependsOnlyOnItems(a: map<int, int>, b: map<int, int>, c: Category, n: nat)
    requires forall id :: 1 <= id <= n ==> (id in a <==> id in b)
    requires forall id :: 1 <= id <= n && id in a ==> a[id] == b[id]
    ensures CategoryTally(a, c, a.Keys, n) == CategoryTally(b, c, b.Keys, n)
  {
    if n > 0 {
      TallyDependsOnlyOnItems(a, b, c, n - 1);
    }
  }

  /** calculateScores reads nothing but the answers to items 1..39: answers
      under any other id are ignored. */
  lemma UnknownIdsIgnored(answers: map<int, int>)
    ensures CalculateScores(answers) == CalculateScores(RestrictToItems(answers))
  {
    var r := RestrictToItems(answers);
    forall c: Category ensures CategoryTally(answers, c, answers.Keys, LastItem) == CategoryTally(r, c, r.Keys, LastItem) {
      TallyDependsOnlyOnItems(answers, r, c, LastItem);
    }
  }

  /** With no answered item of category c among ids 1..n the tally is empty. */
  lemma {:induction false} TallyOfUnansweredCategory(answers: map<int, int>, c: Category, n: nat)
    requires forall id :: id in answers && id in QuestionCategories ==> QuestionCategories[id] != c
    ensures CategoryTally(answers, c, answers.Keys, n) == Tally(0, 0)
  {
    if n > 0 {
      TallyOfUnansweredCategory(answers, c, n - 1);
    }
  }

  /** A category with no answered item scores exactly 0, not NaN. */
  lemma UnansweredCategoryScoresZero(answers: map<int, int>, c: Category)
    requires forall id :: id in answers && id in QuestionCategories ==> QuestionCategories[id] != c
    ensures CalculateScores(answers).Get(c) == 0.0
  {
    TallyOfUnansweredCategory(answers, c, LastItem);
    CategoryScore(answers, c);
  }

  /** On the 5-point scale every adjusted answer stays on the scale, so the
      tally's total lies between count and 5 * count. */
  lemma {:induction false} TallyOnScale(answers: map<int, int>, c: Category, n: nat)
    requires AnswersOnScale(answers)
    ensures var t := CategoryTally(answers, c, answers.Keys, n);
      t.count <= t.total <= 5 * t.count
  {
    if n > 0 {
      TallyOnScale(answers, c, n - 1);
    }
  }

  /** With every answer on the 5-point scale, every category score is in 0..100. */
  lemma ScoresInRange(answers: map<int, int>, c: Category)
    requires AnswersOnScale(answers)
    ensures 0.0 <= CalculateScores(answers).Get(c) <= 100.0
  {
    TallyOnScale(answers, c, LastItem);
    CategoryScore(answers, c);
  }

  /** Answering every item v, and the reverse-scored items 6 - v. */
  predicate UniformlyAnswered(answers: map<int, int>, v: int) {
    forall id :: 1 <= id <= LastItem ==>
      id in answers && answers[id] == (if id == 12 || id == 14 then 6 - v else v)
  }

  lemma UniformAdjustedScore(answers: map<int, int>, v: int, id: int)
    requires UniformlyAnswered(answers, v) && 1 <= id <= LastItem
    ensures id in answers && AdjustedScore(id, answers[id]) == v
  {
  }

  /** Every item up to n is answered and counts v once adjusted. */
  predicate AdjustsTo(answers: map<int, int>, v: int, n: nat) {
    forall id :: 1 <= id <= n ==> id in answers && AdjustedScore(id, answers[id]) == v
  }

  lemma {:induction false} UniformTally(answers: map<int, int>, v: int, c: Category, n: nat)
    requires AdjustsTo(answers, v, n)
    ensures var t := CategoryTally(answers, c, answers.Keys, n);
      t.total == v * t.count
  {
    if n > 0 {
      assert AdjustsTo(answers, v, n - 1);
      UniformTally(answers, v, c, n - 1);
      var before := CategoryTally(answers, c, answers.Keys, n - 1);
      var after := CategoryTally(answers, c, answers.Keys, n);
      assert n in answers && AdjustedScore(n, answers[n]) == v;
      if n in QuestionCategories && QuestionCategories[n] == c {
        assert after == Tally(before.total + v, before.count + 1);
        MultiplySuccessor(v, before.count);
      } else {
        assert after == before;
      }
    }
  }

  lemma MultiplySuccessor(v: int, k: int)
    ensures v * k + v == v * (k + 1)
  {
  }

  /** The first item of each category. */
  function FirstItem(c: Category): (id: int)
    ensures 1 <= id <= LastItem && QuestionCategories[id] == c
  {
    match c
    case Em => 1
    case Pe => 15
    case Ph => 19
    case Or => 25
    case Im => 36
  }

  /** An answered item of c among 1..n makes the tally non-empty. */
  lemma {:induction false} TallyCountsAnsweredItem(answers: map<int, int>, c: Category, id: int, n: nat)
    requires 1 <= id <= n && id in answers && id in QuestionCategories && QuestionCategories[id] == c
    ensures CategoryTally(answers, c, answers.Keys, n).count > 0
  {
    if id < n {
      TallyCountsAnsweredItem(answers, c, id, n - 1);
    }
  }

  /** Every item answered v (reverse-scored items 6 - v) gives every category
      the score (v - 1) / 4 * 100. */
  lemma UniformAnswersScore(answers: map<int, int>, v: int, c: Category)
    requires UniformlyAnswered(answers, v)
    ensures CalculateScores(answers).Get(c) == ((v - 1) as real / 4.0) * 100.0
  {
    var t := CategoryTally(answers, c, answers.Keys, LastItem);
    forall id | 1 <= id <= LastItem ensures id in answers && AdjustedScore(id, answers[id]) == v {
      UniformAdjustedScore(answers, v, id);
    }
    UniformTally(answers, v, c, LastItem);
    TallyCountsAnsweredItem(answers, c, FirstItem(c), LastItem);
    RescaledUniform(t, v);
    CategoryScore(answers, c);
  }

  /** A tally whose every answer is v rescales to (v - 1) / 4 * 100. */
  lemma RescaledUniform(t: Tally, v: int)
    requires t.count > 0 && t.total == v * t.count
    ensures RescaledAverage(t) == ((v - 1) as real / 4.0) * 100.0
  {
    var c := t.count as real;
    var average := t.total as real / c;
    assert average * c == t.total as real == v as real * c;
    if average < v as real {
      PositiveProduct(v as real - average, c);
      assert false;
    }
    if average > v as real {
      PositiveProduct(average - v as real, c);
      assert false;
    }
  }

  /** One answer alone: items 12 and 14 contribute 6 - raw, every other item
      its raw answer, and only the item's own category gets a score. */
  lemma SingleAnswerScore(id: int, raw: int, c: Category)
    requires 1 <= id <= LastItem
    ensures var contribution := if id == 12 || id == 14 then 6 - raw else raw;
      CalculateScores(map[id := raw]).Get(c) ==
        if QuestionCategories[id] == c then ((contribution - 1) as real / 4.0) * 100.0 else 0.0
  {
    var answers := map[id := raw];
    var contribution := if id == 12 || id == 14 then 6 - raw else raw;
    assert AdjustedScore(id, raw) == contribution;
    CategoryKeysAreItemIds(id);
    assert answers.Keys == {} + {id};
    TallyOfNothing(answers, c, LastItem);
    TallyVisit(answers, c, {}, id, LastItem);
    var t := CategoryTally(answers, c, answers.Keys, LastItem);
    assert t == if QuestionCategories[id] == c then Tally(contribution, 1) else Tally(0, 0);
    CategoryScore(answers, c);
  }

  /** The scoring code's category map follows the id ranges of the table. */
  lemma CategoryMapFollowsRanges(id: int)
    requires 1 <= id <= LastItem
    ensures id in QuestionCategories && QuestionCategories[id] == RangeCategory(id)
  {
    CategoryKeysAreItemIds(id);
    if id <= 14 {
      assert QuestionCategories[id] == Em;
    } else if id <= 18 {
      assert QuestionCategories[id] == Pe;
    } else if id <= 24 {
      assert QuestionCategories[id] == Ph;
    } else if id <= 35 {
      assert QuestionCategories[id] == Or;
    } else {
      assert QuestionCategories[id] == Im;
    }
  }

  /** The scoring code's own id -> category map and reversed-item list agree
      with the question table: the same ids, the same category for each,
      and reversal exactly where the table marks it. */
  lemma ScoringTablesAgreeWithQuestions()
    ensures forall id :: id in QuestionCategories <==> exists i :: 0 <= i < |Items| && Items[i].id == id
    ensures forall i :: 0 <= i < |Items| ==>
      Items[i].id in QuestionCategories && QuestionCategories[Items[i].id] == Items[i].category
    ensures forall i :: 0 <= i < |Items| ==> (Items[i].id in ReversedQuestions <==> Items[i].isReversed)
  {
    ItemIdsAreOneToThirtyNine();
    ItemCategoriesAndReversal();
    forall i | 0 <= i < |Items|
      ensures Items[i].id in QuestionCategories && QuestionCategories[Items[i].id] == Items[i].category
    {
      CategoryMapFollowsRanges(i + 1);
    }
    forall id | id in QuestionCategories
      ensures exists i :: 0 <= i < |Items| && Items[i].id == id
    {
      CategoryKeysAreItemIds(id);
      assert Items[id - 1].id == id;
    }
  }

  /** The weighted sum behind the ABO index: em 30%, pe, ph and or 20% each,
      im 10%. */
  function WeightedScore(s: CategoryScores): (w: real)
    ensures s.em == s.pe == s.ph == s.or == s.im ==> w == s.em
  {
    s.em * 0.3 + s.pe * 0.2 + s.ph * 0.2 + s.or * 0.2 + s.im * 0.1
  }

  /** calculateABOIndex: the weighted sum rounded half-up, as Math.round does. */
  function CalculateABOIndex(s: CategoryScores): (r: int)
    ensures r as real <= WeightedScore(s) + 0.5 < r as real + 1.0
  {
    (WeightedScore(s) + 0.5).Floor
  }

  /** Category scores in 0..100 give an index in 0..100. */
  lemma ABOIndexInRange(s: CategoryScores)
    requires forall c: Category :: 0.0 <= s.Get(c) <= 100.0
    ensures 0 <= CalculateABOIndex(s) <= 100
  {
    assert 0.0 <= s.Get(Em) <= 100.0 && 0.0 <= s.Get(Pe) <= 100.0 && 0.0 <= s.Get(Ph) <= 100.0;
    assert 0.0 <= s.Get(Or) <= 100.0 && 0.0 <= s.Get(Im) <= 100.0;
  }

  /** Raising any category score never lowers the index. */
  lemma ABOIndexMonotone(s: CategoryScores, t: CategoryScores)
    requires forall c: Category :: s.Get(c) <= t.Get(c)
    ensures CalculateABOIndex(s) <= CalculateABOIndex(t)
  {
    assert s.Get(Em) <= t.Get(Em) && s.Get(Pe) <= t.Get(Pe) && s.Get(Ph) <= t.Get(Ph);
    assert s.Get(Or) <= t.Get(Or) && s.Get(Im) <= t.Get(Im);
  }

  /** getBurnoutLevel: the four half-open bands of the index. */
  function GetBurnoutLevel(aboIndex: int): (l: Level)
    ensures l == Safe <==> aboIndex < 30
    ensures l == Caution <==> 30 <= aboIndex < 50
    ensures l == Warning <==> 50 <= aboIndex < 70
    ensures l == Danger <==> 70 <= aboIndex
  {
    if aboIndex < 30 then Safe
    else if aboIndex < 50 then Caution
    else if aboIndex < 70 then Warning
    else Danger
  }

  /** A higher index never gives a lower level. */
  lemma BurnoutLevelMonotone(i: int, j: int)
    requires i <= j
    ensures Rank(GetBurnoutLevel(i)) <= Rank(GetBurnoutLevel(j))
  {
  }

  /** The band edges. */
  lemma BurnoutLevelBoundaries()
    ensures GetBurnoutLevel(29) == Safe && GetBurnoutLevel(30) == Caution
    ensures GetBurnoutLevel(49) == Caution && GetBurnoutLevel(50) == Warning
    ensures GetBurnoutLevel(69) == Warning && GetBurnoutLevel(70) == Danger
    ensures GetBurnoutLevel(100) == Danger
  {
  }

  /** The result the assessment page assembles once the survey is complete:
      scores, index and level computed from the answers, stamped with the
      completion time (a parameter here) and the demographics. */
  function MakeResult(answers: map<int, int>, timestamp: string, demographics: Demographics): (r: AssessmentResult)
    ensures r.categoryScores == CalculateScores(answers)
    ensures r.aboIndex == CalculateABOIndex(r.categoryScores)
    ensures r.level == GetBurnoutLevel(r.aboIndex)
    ensures AnswersOnScale(answers) ==> 0 <= r.aboIndex <= 100
    ensures r.timestamp == timestamp && r.demographics == Some(demographics)
  {
    var scores := CalculateScores(answers);
    var aboIndex := CalculateABOIndex(scores);
    assert AnswersOnScale(answers) ==> 0 <= aboIndex <= 100 by {
      if AnswersOnScale(answers) {
        forall c: Category ensures 0.0 <= scores.Get(c) <= 100.0 {
          ScoresInRange(answers, c);
        }
        ABOIndexInRange(scores);
      }
    }
    AssessmentResult(scores, aboIndex, GetBurnoutLevel(aboIndex), timestamp, Some(demographics))
  }

  /** No answers at all: every category 0, index 0, level safe. */
  lemma EmptyAssessment(answers: map<int, int>, timestamp: string, demographics: Demographics)
    requires |answers| == 0
    ensures var r := MakeResult(answers, timestamp, demographics);
      && (forall c: Category :: r.categoryScores.Get(c) == 0.0)
      && r.aboIndex == 0
      && r.level == Safe
  {
    var r := MakeResult(answers, timestamp, demographics);
    NoAnswersScoreZero(answers);
    ZeroScoresZeroIndex();
    ZeroRecordEverywhere(r.categoryScores);
  }

  lemma NoAnswersScoreZero(answers: map<int, int>)
    requires |answers| == 0
    ensures CalculateScores(answers) == CategoryScores(0.0, 0.0, 0.0, 0.0, 0.0)
  {
    UnansweredCategoryScoresZero(answers, Em);
    UnansweredCategoryScoresZero(answers, Pe);
    UnansweredCategoryScoresZero(answers, Ph);
    UnansweredCategoryScoresZero(answers, Or);
    UnansweredCategoryScoresZero(answers, Im);
  }

  lemma ZeroRecordEverywhere(s: CategoryScores)
    requires s == CategoryScores(0.0, 0.0, 0.0, 0.0, 0.0)
    ensures forall c: Category :: s.Get(c) == 0.0
  {
    forall c: Category ensures s.Get(c) == 0.0 {
      match c { case Em => case Pe => case Ph => case Or => case Im => }
    }
  }

  lemma ZeroScoresZeroIndex()
    ensures CalculateABOIndex(CategoryScores(0.0, 0.0, 0.0, 0.0, 0.0)) == 0
  {
    var zero := CategoryScores(0.0, 0.0, 0.0, 0.0, 0.0);
    assert WeightedScore(zero) == 0.0;
    var r := CalculateABOIndex(zero);
    assert r as real <= 0.5 < r as real + 1.0;
  }
}
