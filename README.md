# Pantry and receipt logic, modelled in Dafny

This project models two small pieces of the application's logic and proves
what they promise.

- **The receipt parser** (`parse_asprise_response`) reads the decoded answer of
  the Asprise receipt OCR service. It takes the first receipt only. It reports
  that receipt's store, which is `"Unknown"` when the `merchant_name` key is
  missing. It also reports how many times each item name occurs. An item's
  name is its description with the surrounding whitespace stripped and then
  title-cased. Empty names are skipped. Without a receipt the answer has the
  other shape, `merchant_name = None` and no items.
- **The recipe recommender** flattens each recipe's ingredient field into one
  lower-case string: a list is joined with single spaces, anything else is
  rendered as a string. It builds the pantry query the same way. Each query
  scores every recipe, writes the scores into the corpus's `similarity`
  column, sorts by similarity (best first), keeps the first `top_n` rows
  (10 by default) and returns their Name and similarity.

The files:

- `wrappers.dfy` holds `Option` and `Result`.
- `strings.dfy` (module `Strings`) holds the string built-ins the code relies on: `lower`, `strip`, `title` and `join`.
- `receipt_parser.dfy` (module `ReceiptParser`) holds the parser. It has a specification function `Parse`, and `ParseAspriseResponse` is the imperative parser whose loop is proved against `Parse`.
- `recipe_recommender.dfy` (module `RecipeRecommender`) holds the text normalisers and the ranking. It also holds the class `RecipeCorpus`, whose `similarity` array each `Recommend` call overwrites.

A decoded JSON object is modelled by the keys the parser reads. Each key is
`Absent`, `Null` or `Present(value)`. The runtime errors that the code runs
into on a `null` become `Failure` results instead of preconditions:
- a `null` item list cannot be iterated (`ItemsNotIterable`);
- a `null` description has no `strip` (`DescriptionNotString(i)`, where `i` is the first such item).

A `null` `merchant_name` is a present key, so the store is `None`, not `"Unknown"`.
A `null` or empty `receipts` counts as no receipt, just like a missing one.

## Model

| member | source | states |
|---|---|---|
| ReceiptParser.ParseAspriseResponse | Backend/app/utils/receipt_parser.py:1-28 | the parser's answer, errors included, is exactly the specification `Parse` of the response |
| ReceiptParser.CountItems | Backend/app/utils/receipt_parser.py:17-23 | the item loop either fails at the first `null` description, with its position, or yields the counts of one tally step per item, in order |
| ReceiptParser.ParseShape | Backend/app/utils/receipt_parser.py:6-10 | the answer is `merchant_name = None` with no items exactly when `receipts` is missing, `null` or empty; the no-receipt shape occurs only then |
| ReceiptParser.ParseOnlyFirstReceipt | Backend/app/utils/receipt_parser.py:13 | receipts after the first never change the answer |
| ReceiptParser.StoreName | Backend/app/utils/receipt_parser.py:14 | the store is `"Unknown"` for a missing `merchant_name`, `None` for a `null` one, and the given name otherwise |
| ReceiptParser.ParseCounts | Backend/app/utils/receipt_parser.py:14-27 | a successful parse reports the first receipt's store; a key is present exactly when it is the non-empty name of some item; each count is the number of items with that name and is at least 1; the counts add up to the number of items whose name is not empty; a missing item list gives no counts |
| ReceiptParser.ParseFailures | Backend/app/utils/receipt_parser.py:16-20 | the parse fails with `ItemsNotIterable` exactly when the item list is `null`, and with `DescriptionNotString(i)` exactly when item `i` is the first one with a `null` description |
| ReceiptParser.FirstNullDescription | Backend/app/utils/receipt_parser.py:19-20 | there is no answer exactly when no description is `null`; otherwise the answer is the position of a `null` description with none before it |
| ReceiptParser.CountNamesExact | Backend/app/utils/receipt_parser.py:19-23 | counting names is exact: the keys are the non-empty names that occur, and each count is that name's number of occurrences, at least 1 |
| ReceiptParser.CountNamesTotal | Backend/app/utils/receipt_parser.py:21-23 | the counts add up to the number of names that are not empty |
| ReceiptParser.ItemCountsAreNameCounts | Backend/app/utils/receipt_parser.py:19-23 | counting the items is counting the sequence of their names |
| ReceiptParser.NormaliseSpec | Backend/app/utils/receipt_parser.py:20-22 | an item name is no longer than its description, is empty exactly when the description is all whitespace (so it is skipped), and otherwise has no whitespace at either end |
| ReceiptParser.NormaliseIdempotent | Backend/app/utils/receipt_parser.py:20 | normalising an item name again leaves it unchanged |
| Strings.StripSpec | Backend/app/utils/receipt_parser.py:20 | `strip` yields the slice of the string between its leading and trailing whitespace runs: everything removed is whitespace, the result neither starts nor ends with whitespace, and it is empty exactly when the string is all whitespace |
| Strings.StripTrimmed | Backend/app/utils/receipt_parser.py:20 | a string without whitespace at either end is its own stripped form |
| Strings.TitleFromSpec | Backend/app/utils/receipt_parser.py:20 | `title` keeps the length, every character up to case and every non-letter exactly; a letter becomes upper-case exactly when the character before it is not a letter |
| Strings.TitleIdempotent | Backend/app/utils/receipt_parser.py:20 | title-casing twice is title-casing once |
| Strings.TitleKeepsSpaces | Backend/app/utils/receipt_parser.py:20 | title-casing keeps every whitespace character in its place |
| Strings.Lower | AI/app/models/model2_recipe_recommender.py:20 | `lower` keeps the length, turns each upper-case letter into its own lower-case letter (every character keeps its upper-case form) and changes no other character, so no upper-case letter is left |
| Strings.LowerIgnoresCase | AI/app/models/model2_recipe_recommender.py:20 | strings that differ only in the case of their letters lower-case to the same string |
| Strings.LowerIdempotent | AI/app/models/model2_recipe_recommender.py:20 | lower-casing twice is lower-casing once |
| Strings.LowerConcat | AI/app/models/model2_recipe_recommender.py:35 | lower-casing distributes over concatenation |
| Strings.LowerJoin | AI/app/models/model2_recipe_recommender.py:20 | lower-casing a joined string is joining the lower-cased parts with the lower-cased separator |
| Strings.JoinAppend | AI/app/models/model2_recipe_recommender.py:35 | joining one more part appends one separator and that part to the joined string |
| RecipeRecommender.IngredientText | AI/app/models/model2_recipe_recommender.py:19-21 | a recipe's ingredient text contains no upper-case letter |
| RecipeRecommender.IngredientTextOfParts | AI/app/models/model2_recipe_recommender.py:19-21 | a list field is indexed as its lower-cased ingredients, in order, joined by single spaces |
| RecipeRecommender.SinglePartIsScalar | AI/app/models/model2_recipe_recommender.py:19-21 | a one-ingredient list and a scalar rendering the same text are indexed alike |
| RecipeRecommender.PantryText | AI/app/models/model2_recipe_recommender.py:35 | the pantry query is the lower-cased pantry items, in the order given, joined by single spaces |
| RecipeRecommender.PantryTextMatchesRecipeText | AI/app/models/model2_recipe_recommender.py:35 | the pantry is normalised exactly as a recipe's ingredient list is |
| RecipeRecommender.PantryTextIgnoresCase | AI/app/models/model2_recipe_recommender.py:35 | pantries whose items differ only in letter case ("Sugar" and "sugar") give the same query text |
| RecipeRecommender.PantryTextAppend | AI/app/models/model2_recipe_recommender.py:35 | one more pantry item appears at the end of the query, lower-cased, after one space |
| RecipeRecommender.RankDescending | AI/app/models/model2_recipe_recommender.py:41 | sorting by similarity yields every row exactly once, in non-increasing similarity (ties in no promised order) |
| RecipeRecommender.PermutationOfRows | AI/app/models/model2_recipe_recommender.py:41 | a permutation of the rows has one entry per row, names only existing rows, names every row, and names no row twice |
| RecipeRecommender.Head | AI/app/models/model2_recipe_recommender.py:41 | `head(n)` keeps the first min(n, rows) entries of the ranking |
| RecipeRecommender.Project | AI/app/models/model2_recipe_recommender.py:42 | the projection keeps one result row per selected row, in order, each tagged with its corpus row |
| RecipeRecommender.RankingHeadDominates | AI/app/models/model2_recipe_recommender.py:41 | after sorting descending, a row that `head(n)` leaves out scores no higher than any row it keeps |
| RecipeRecommender.HeadOfRankingIsTopN | AI/app/models/model2_recipe_recommender.py:41-42 | the first n rows of a ranking, projected to (Name, similarity), give min(n, rows) results; each carries one corpus row's own Name and similarity; no row appears twice; similarities are non-increasing; no row left out scores above any returned row |
| RecipeRecommender.RecipeCorpus.constructor | AI/app/models/model2_recipe_recommender.py:16-21 | the corpus keeps each source row's Name and ingredient field in order, and derives each row's ingredient text; there is no similarity column yet |
| RecipeRecommender.RecipeCorpus.Recommend | AI/app/models/model2_recipe_recommender.py:31-42 | after a query the similarity column holds exactly this query's score for every row, and the answer is a top-`topN` answer over that column; `topN` defaults to 10; names, rows and their order do not change |

## Left out

- The TF-IDF vectoriser and the cosine similarity are floating-point library code. `Recommend` takes the score of the pantry text against each row as the function parameter `score`.
- The parquet read, and the cached model that is loaded or built and saved with joblib, are file I/O at load time. The corpus is built from rows passed to its constructor.
- The `__main__` demonstration is left out because it only prints.
- Tie order: pandas' default sort is not stable, so the model promises no order among rows with equal similarity.
- A negative `top_n` is left out, because `topN` is a `nat`.
- `strip`, `title` and `lower` are defined over ASCII only. Characters outside ASCII are uncased and are not whitespace.
- JSON values of the wrong type (a non-dict receipt or item, a description or merchant name that is a number) are excluded by the datatypes. Only `null` and missing keys are modelled.
- Rendering a non-list ingredient field with `str` is outside the model. Such a field is given by its rendered text.
- RecipeRecommender.RecipeCorpus.Recommend: `score` depends only on the pantry text and the row, so the model does not tie the score to the corpus's ingredient texts. The real score comes from a vectoriser fitted on those texts.
- RecipeRecommender.RecipeCorpus.Recommend: the model assumes that there is exactly one score per corpus row, and that it belongs to that row. In the program the scores come from a matrix that may have been loaded from the cache file. If that matrix has a different number of rows than the current recipe data, writing the `similarity` column raises an error. If it has the same number of rows but was built from other data, each row silently gets another corpus's score. The model covers neither outcome.
- ReceiptParser.ParsedReceipt: the item counts are a `map`, which has no order. The program's dictionary also keeps the order in which names first appear, and the web route returns it in that order. The model does not capture that order.
- ReceiptParser.CountItems: the name of an item is passed in as a function, and the parser passes `ItemName`, the stripped and title-cased description. The loop itself is proved for any naming.
- The OCR HTTP client, the web routes, the database code and the frontend are not part of this model.
