/**
 * The recipe recommender: each recipe's ingredient list is flattened into
 * one lower-case string, the pantry is flattened the same way, every recipe
 * is scored against the pantry, the scores are written into the corpus's
 * `similarity` column, and the best `topN` rows are returned as
 * (Name, similarity) pairs in non-increasing order of similarity.
 *
 * The scoring itself (a TF-IDF vectoriser fitted on the corpus and a cosine
 * similarity) is floating-point library code; it enters the model as the
 * function `score`, which gives the similarity of a pantry text to a row.
 */
module RecipeRecommender {
  import opened Strings

  /** The number of recommendations returned when the caller asks for no particular number. */
  const DefaultTopN: nat := 10

  /** A recipe's ingredient field: a list of ingredient names, or any other value, given as its `str` rendering. */
  datatype IngredientField = Parts(parts: seq<string>) | Scalar(rendered: string)

  /** One row of the recipe source, reduced to the two columns the recommender keeps. */
  datatype RecipeRow = RecipeRow(name: string, ingredientParts: IngredientField)

  /** One row of the answer: the corpus row it comes from, and that row's Name and similarity. */
  datatype Recommendation = Recommendation(row: nat, name: string, similarity: real)

  // ---------------------------------------------------------------- text normalisation

  /**
   * The text a recipe is indexed under: a list is joined with single spaces,
   * anything else is rendered as a string; then everything is lower-cased.
   */
  function IngredientText(field: IngredientField): (text: string)
    ensures forall i :: 0 <= i < |text| ==> !IsUpper(text[i])
  {
    match field
    case Parts(parts) => Lower(Join(" ", parts))
    case Scalar(rendered) => Lower(rendered)
  }

  /** A list field is indexed as its lower-cased ingredients, in their order, separated by single spaces. */
  lemma IngredientTextOfParts(parts: seq<string>)
    ensures IngredientText(Parts(parts)) == Join(" ", LowerAll(parts))
  {
    LowerJoin(" ", parts);
    assert Lower(" ")[0] == ' ';
    assert Lower(" ") == " ";
  }

  /** A one-ingredient list and a scalar holding the same text are indexed alike. */
  lemma SinglePartIsScalar(p: string)
    ensures IngredientText(Parts([p])) == IngredientText(Scalar(p))
  {
  }

  /** The query text: the pantry items lower-cased, in the order given, separated by single spaces. */
  function PantryText(pantryItems: seq<string>): (text: string)
    ensures text == Join(" ", LowerAll(pantryItems))
  {
    IngredientTextOfParts(pantryItems);
    Lower(Join(" ", pantryItems))
  }

  /** The pantry is normalised exactly as a recipe's ingredient list is. */
  lemma PantryTextMatchesRecipeText(pantryItems: seq<string>)
    ensures PantryText(pantryItems) == IngredientText(Parts(pantryItems))
  {
  }

  /** Pantries whose items differ only in the case of their letters give the same query. */
  lemma PantryTextIgnoresCase(pantryItems: seq<string>, others: seq<string>)
    requires |pantryItems| == |others|
    requires forall k :: 0 <= k < |pantryItems| ==> SameUpToCase(pantryItems[k], others[k])
    ensures PantryText(pantryItems) == PantryText(others)
  {
    forall k | 0 <= k < |pantryItems|
      ensures Lower(pantryItems[k]) == Lower(others[k])
    {
      LowerIgnoresCase(pantryItems[k], others[k]);
    }
    assert LowerAll(pantryItems) == LowerAll(others);
  }

  /** Adding an item to the pantry appends it, lower-cased, after one space: item order is kept. */
  lemma PantryTextAppend(pantryItems: seq<string>, item: string)
    requires pantryItems != []
    ensures PantryText(pantryItems + [item]) == PantryText(pantryItems) + " " + Lower(item)
  {
    JoinAppend(" ", pantryItems, item);
    LowerConcat(Join(" ", pantryItems) + " ", item);
    LowerConcat(Join(" ", pantryItems), " ");
  }

  // ---------------------------------------------------------------- ranking

  /** The smaller of two counts. */
  function Min(a: nat, b: nat): nat { if a <= b then a else b }

  /** The row positions 0, 1, ..., n - 1 of a frame with n rows. */
  function RowIndices(n: nat): (r: seq<nat>)
    ensures |r| == n
    ensures forall i :: 0 <= i < n ==> r[i] == i
  {
    seq(n, i requires 0 <= i < n => i)
  }

  /** `order` lists each of the rows 0, ..., n - 1 exactly once. */
  ghost predicate IsPermutationOfRows(order: seq<nat>, n: nat) {
    multiset(order) == multiset(RowIndices(n))
  }

  /** `order` names rows of a frame with `|sim|` rows, in non-increasing order of `sim`. */
  predicate SortedDescending(order: seq<nat>, sim: seq<real>) {
    (forall k :: 0 <= k < |order| ==> order[k] < |sim|)
    && (forall k, l :: 0 <= k < l < |order| ==> sim[order[k]] >= sim[order[l]])
  }

  /** What sorting the frame by `sim`, descending, yields: its rows, each once, best first. Ties may come in any order. */
  ghost predicate IsRanking(order: seq<nat>, sim: seq<real>) {
    IsPermutationOfRows(order, |sim|) && SortedDescending(order, sim)
  }

  /** Every row occurs once among the row positions, and nothing else occurs. */
  lemma {:induction false} RowIndicesOnce(n: nat, x: nat)
    ensures multiset(RowIndices(n))[x] == if x < n then 1 else 0
  {
    if n > 0 {
      assert RowIndices(n) == RowIndices(n - 1) + [n - 1];
      RowIndicesOnce(n - 1, x);
    }
  }

  /** A permutation of the rows has one entry per row, names only rows, names every row, and names none twice. */
  lemma PermutationOfRows(order: seq<nat>, n: nat)
    requires IsPermutationOfRows(order, n)
    ensures |order| == n
    ensures forall k :: 0 <= k < |order| ==> order[k] < n
    ensures forall j :: 0 <= j < n ==> j in order
    ensures forall k, l :: 0 <= k < l < |order| ==> order[k] != order[l]
  {
    assert |multiset(order)| == |order|;
    forall k | 0 <= k < |order|
      ensures order[k] < n
    {
      assert order[k] in multiset(order);
      RowIndicesOnce(n, order[k]);
    }
    forall j | 0 <= j < n
      ensures j in order
    {
      RowIndicesOnce(n, j);
      assert j in multiset(order);
    }
    forall k, l | 0 <= k < l < |order|
      ensures order[k] != order[l]
    {
      if order[k] == order[l] {
        var x := order[k];
        assert order == order[..k] + [x] + order[k + 1..l] + [x] + order[l + 1..];
        assert multiset(order)[x] >= 2;
        RowIndicesOnce(n, x);
        assert false;
      }
    }
  }

  /** The position, from `from` on, of a row of `a` whose score is the largest among those positions. */
  method BestFrom(a: array<nat>, from: nat, sim: seq<real>) returns (best: nat)
    requires from < a.Length
    requires forall p :: 0 <= p < a.Length ==> a[p] < |sim|
    ensures from <= best < a.Length
    ensures forall q :: from <= q < a.Length ==> sim[a[best]] >= sim[a[q]]
  {
    best := from;
    var j := from + 1;
    while j < a.Length
      invariant from <= best < a.Length
      invariant from < j <= a.Length
      invariant forall q :: from <= q < j ==> sim[a[best]] >= sim[a[q]]
    {
      if sim[a[j]] > sim[a[best]] {
        best := j;
      }
      j := j + 1;
    }
  }

  method Swap(a: array<nat>, i: nat, j: nat)
    requires i < a.Length && j < a.Length
    modifies a
    ensures a[i] == old(a[j]) && a[j] == old(a[i])
    ensures forall p :: 0 <= p < a.Length && p != i && p != j ==> a[p] == old(a[p])
    ensures multiset(a[..]) == multiset(old(a[..]))
  {
    a[i], a[j] := a[j], a[i];
  }

  /**
   * `sort_values(by='similarity', ascending=False)`: the row positions of a
   * frame whose similarity column is `sim`, sorted best first.
   */
  method RankDescending(sim: seq<real>) returns (order: seq<nat>)
    ensures IsRanking(order, sim)
  {
    var n := |sim|;
    var a := new nat[n](i => i);
    assert a[..] == RowIndices(n);
    var i := 0;
    while i < n
      invariant 0 <= i <= n
      invariant multiset(a[..]) == multiset(RowIndices(n))
      invariant forall p :: 0 <= p < n ==> a[p] < n
      invariant forall p, q :: 0 <= p < i && p < q < n ==> sim[a[p]] >= sim[a[q]]
    {
      var best := BestFrom(a, i, sim);
      Swap(a, i, best);
      i := i + 1;
    }
    order := a[..];
  }

  /** `head(n)` of a ranking: its first n entries, or all of them when there are fewer. */
  function Head(order: seq<nat>, n: nat): (top: seq<nat>)
    ensures |top| == Min(n, |order|)
    ensures top == order[..|top|]
  {
    order[..Min(n, |order|)]
  }

  /** Selecting the Name and similarity columns of the given rows. */
  function Project(rows: seq<nat>, names: seq<string>, sim: seq<real>): (top: seq<Recommendation>)
    requires |names| == |sim|
    requires forall k :: 0 <= k < |rows| ==> rows[k] < |sim|
    ensures |top| == |rows|
    ensures forall k :: 0 <= k < |rows| ==> top[k].row == rows[k]
  {
    seq(|rows|, k requires 0 <= k < |rows| => Recommendation(rows[k], names[rows[k]], sim[rows[k]]))
  }

  /**
   * What a top-n answer over a frame with columns `names` and `sim` is:
   * min(n, rows) entries, each carrying one row's own Name and similarity,
   * no row twice, in non-increasing similarity, and no row left out scoring
   * above any row returned.
   */
  predicate IsTopN(top: seq<Recommendation>, names: seq<string>, sim: seq<real>, n: nat)
    requires |names| == |sim|
  {
    |top| == Min(n, |sim|)
    && (forall k :: 0 <= k < |top| ==>
          top[k].row < |sim| && top[k].name == names[top[k].row] && top[k].similarity == sim[top[k].row])
    && (forall k, l :: 0 <= k < l < |top| ==> top[k].row != top[l].row)
    && (forall k, l :: 0 <= k < l < |top| ==> top[k].similarity >= top[l].similarity)
    && (forall j, k :: 0 <= j < |sim| && 0 <= k < |top| && (forall m :: 0 <= m < |top| ==> top[m].row != j) ==>
          sim[j] <= top[k].similarity)
  }

  /** A row that a ranking does not put among its first n scores no higher than any row it does. */
  lemma RankingHeadDominates(order: seq<nat>, sim: seq<real>, n: nat)
    requires IsRanking(order, sim)
    ensures forall j, k :: 0 <= j < |sim| && j !in Head(order, n) && 0 <= k < |Head(order, n)| ==>
              sim[j] <= sim[Head(order, n)[k]]
  {
    PermutationOfRows(order, |sim|);
    var rows := Head(order, n);
    forall j, k | 0 <= j < |sim| && j !in rows && 0 <= k < |rows|
      ensures sim[j] <= sim[rows[k]]
    {
      assert j in order;
      var p :| 0 <= p < |order| && order[p] == j;
      assert p >= |rows|;
    }
  }

  /** The first n rows of a ranking, projected to (Name, similarity), are a top-n answer. */
  lemma HeadOfRankingIsTopN(order: seq<nat>, names: seq<string>, sim: seq<real>, n: nat)
    requires |names| == |sim|
    requires IsRanking(order, sim)
    ensures IsTopN(Project(Head(order, n), names, sim), names, sim, n)
  {
    PermutationOfRows(order, |sim|);
    RankingHeadDominates(order, sim, n);
    var rows := Head(order, n);
    var top := Project(rows, names, sim);
    forall j | 0 <= j < |sim| && (forall m :: 0 <= m < |top| ==> top[m].row != j)
      ensures j !in rows
    {
    }
  }

  /**
   * The recipe corpus: the Name and ingredient columns, the derived
   * ingredient text, and the `similarity` column that every query overwrites.
   * Rows and their order never change after loading.
   */
  class RecipeCorpus {
    const names: seq<string>
    const ingredientParts: seq<IngredientField>
    const ingredientsText: seq<string>
    const similarity: array<real>
    /** Whether the frame has a `similarity` column yet (it appears with the first query). */
    var hasSimilarity: bool

    ghost predicate Valid()
      reads this
    {
      |ingredientParts| == |names| && |ingredientsText| == |names| && similarity.Length == |names|
      && (forall i :: 0 <= i < |names| ==> ingredientsText[i] == IngredientText(ingredientParts[i]))
    }

    /** Keeping the Name and ingredient columns of the source and deriving each row's ingredient text. */
    constructor (rows: seq<RecipeRow>)
      ensures Valid() && fresh(similarity) && !hasSimilarity
      ensures |names| == |rows|
      ensures forall i :: 0 <= i < |rows| ==>
                names[i] == rows[i].name && ingredientParts[i] == rows[i].ingredientParts
    {
      names := seq(|rows|, i requires 0 <= i < |rows| => rows[i].name);
      ingredientParts := seq(|rows|, i requires 0 <= i < |rows| => rows[i].ingredientParts);
      ingredientsText := seq(|rows|, i requires 0 <= i < |rows| => IngredientText(rows[i].ingredientParts));
      similarity := new real[|rows|];
      hasSimilarity := false;
    }

    /**
     * Scores every row against the pantry, stores the scores in the
     * `similarity` column, and answers the best `topN` rows.
     */
    method Recommend(pantryItems: seq<string>, score: (string, nat) -> real, topN: nat := DefaultTopN)
      returns (top: seq<Recommendation>)
      requires Valid()
      modifies this`hasSimilarity, similarity
      ensures Valid() && hasSimilarity
      ensures forall i :: 0 <= i < similarity.Length ==> similarity[i] == score(PantryText(pantryItems), i)
      ensures IsTopN(top, names, similarity[..], topN)
    {
      var pantryText := PantryText(pantryItems);
      var i := 0;
      while i < similarity.Length
        invariant 0 <= i <= similarity.Length
        invariant forall j :: 0 <= j < i ==> similarity[j] == score(pantryText, j)
      {
        similarity[i] := score(pantryText, i);
        i := i + 1;
      }
      hasSimilarity := true;
      var sim := similarity[..];
      var order := RankDescending(sim);
      HeadOfRankingIsTopN(order, names, sim, topN);
      PermutationOfRows(order, |sim|);
      top := Project(Head(order, topN), names, sim);
    }
  }
}
