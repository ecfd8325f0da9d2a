/**
 * The survey definition of lib/questions.ts: the 39 items, the five
 * categories they are grouped into, and the display name and description of
 * each category. The prompt text of each item is not modelled.
 */
module Questions {

  /** QuestionCategory: emotional exhaustion, reduced personal accomplishment,
      physical exhaustion, organizational conflict, depersonalization. */
  datatype Category = Em | Pe | Ph | Or | Im

  /** The categories in the key order of every record the source builds over them. */
  const AllCategories: seq<Category> := [Em, Pe, Ph, Or, Im]

  datatype Question = Question(id: int, category: Category, isReversed: bool)

  /** The `questions` table, item text left out. */
  const Items: seq<Question> := [
    Question(1, Em, false), Question(2, Em, false), Question(3, Em, false),
    Question(4, Em, false), Question(5, Em, false), Question(6, Em, false),
    Question(7, Em, false), Question(8, Em, false), Question(9, Em, false),
    Question(10, Em, false), Question(11, Em, false), Question(12, Em, true),
    Question(13, Em, false), Question(14, Em, true),
    Question(15, Pe, false), Question(16, Pe, false), Question(17, Pe, false),
    Question(18, Pe, false),
    Question(19, Ph, false), Question(20, Ph, false), Question(21, Ph, false),
    Question(22, Ph, false), Question(23, Ph, false), Question(24, Ph, false),
    Question(25, Or, false), Question(26, Or, false), Question(27, Or, false),
    Question(28, Or, false), Question(29, Or, false), Question(30, Or, false),
    Question(31, Or, false), Question(32, Or, false), Question(33, Or, false),
    Question(34, Or, false), Question(35, Or, false),
    Question(36, Im, false), Question(37, Im, false), Question(38, Im, false),
    Question(39, Im, false)
  ]

  const CategoryNames: map<Category, string> := map[
    Em := "감정적·정서적 고갈",
    Pe := "개인성취감 감소",
    Ph := "신체적·생리적 고갈",
    Or := "조직갈등",
    Im := "비인격화"
  ]

  const CategoryDescriptions: map<Category, string> := map[
    Em := "업무에 대한 열정과 의미를 잃어가고 있는 상태",
    Pe := "성취감과 보람을 느끼지 못하는 상태",
    Ph := "신체적으로 지치고 건강에 이상이 생기는 상태",
    Or := "조직 및 동료와의 관계에서 갈등을 겪는 상태",
    Im := "자신과 타인을 인격체로 대하지 못하는 상태"
  ]

  /** Number of items of the table that belong to category c. */
  function CountInCategory(items: seq<Question>, c: Category): (n: nat)
    ensures n <= |items|
  {
    if |items| == 0 then 0
    else CountInCategory(items[..|items| - 1], c) + (if items[|items| - 1].category == c then 1 else 0)
  }

  /** The category an item id falls in, by the id ranges of the table. */
  function RangeCategory(id: int): Category
    requires 1 <= id <= 39
  {
    if id <= 14 then Em
    else if id <= 18 then Pe
    else if id <= 24 then Ph
    else if id <= 35 then Or
    else Im
  }

  /** The table holds ids 1..39 in ascending order, so each id occurs once
      and item k sits at index k - 1. */
  lemma ItemIdsAreOneToThirtyNine()
    ensures |Items| == 39
    ensures forall i :: 0 <= i < |Items| ==> Items[i].id == i + 1
    ensures forall i, j :: 0 <= i < j < |Items| ==> Items[i].id < Items[j].id
  {
  }

  /** Items 1-14 are em, 15-18 pe, 19-24 ph, 25-35 or, 36-39 im, and only
      items 12 and 14 are reverse-scored. */
  lemma ItemCategoriesAndReversal()
    ensures forall i :: 0 <= i < |Items| ==> Items[i].category == RangeCategory(Items[i].id)
    ensures forall i :: 0 <= i < |Items| ==> (Items[i].isReversed <==> Items[i].id in {12, 14})
  {
  }

  /** Counting distributes over concatenation. */
  lemma {:induction false} CountConcat(a: seq<Question>, b: seq<Question>, c: Category)
    ensures CountInCategory(a + b, c) == CountInCategory(a, c) + CountInCategory(b, c)
    decreases |b|
  {
    if |b| == 0 {
      assert a + b == a;
    } else {
      assert (a + b)[..|a + b| - 1] == a + b[..|b| - 1];
      CountConcat(a, b[..|b| - 1], c);
    }
  }

  /** A block of items of one category counts fully for it and not at all
      for any other category. */
  lemma {:induction false} CountBlock(block: seq<Question>, d: Category, c: Category)
    requires forall i :: 0 <= i < |block| ==> block[i].category == d
    ensures CountInCategory(block, c) == if c == d then |block| else 0
  {
    if |block| > 0 {
      CountBlock(block[..|block| - 1], d, c);
    }
  }

  /** The per-category item counts are 14/4/6/11/4. */
  lemma CategorySizes(c: Category)
    ensures CountInCategory(Items, c) == match c
      case Em => 14 case Pe => 4 case Ph => 6 case Or => 11 case Im => 4
  {
    ItemIdsAreOneToThirtyNine();
    ItemCategoriesAndReversal();
    var em, pe, ph, or, im := Items[..14], Items[14..18], Items[18..24], Items[24..35], Items[35..];
    assert Items == em + pe + ph + or + im;
    CountBlock(em, Em, c);
    CountBlock(pe, Pe, c);
    CountBlock(ph, Ph, c);
    CountBlock(or, Or, c);
    CountBlock(im, Im, c);
    CountConcat(em, pe, c);
    CountConcat(em + pe, ph, c);
    CountConcat(em + pe + ph, or, c);
    CountConcat(em + pe + ph + or, im, c);
  }

  /** Every category has a non-empty name and description. */
  lemma CategoryLabelsAreTotal(c: Category)
    ensures c in CategoryNames && CategoryNames[c] != ""
    ensures c in CategoryDescriptions && CategoryDescriptions[c] != ""
  {
  }

  /** No two categories share a display name. */
  lemma CategoryNamesAreDistinct(c: Category, d: Category)
    requires c != d
    ensures CategoryNames[c] != CategoryNames[d]
  {
    assert |CategoryNames[Or]| == 4 && |CategoryNames[Im]| == 4;
    assert CategoryNames[Or][0] != CategoryNames[Im][0];
  }
}
