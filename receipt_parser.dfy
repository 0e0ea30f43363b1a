/**
 * The receipt parser: it reads the decoded answer of the Asprise receipt OCR
 * service and reports the store of the first receipt together with how many
 * times each item name occurs on it. Item names are the descriptions with
 * surrounding whitespace removed and then title-cased; empty names are skipped.
 *
 * A decoded JSON object is modelled by the fields the parser looks at, each
 * of which may be missing, present with `null`, or present with a value.
 * The runtime errors the parser runs into on a `null` are modelled as
 * `Failure` results.
 */
module ReceiptParser {
  import opened Wrappers
  import opened Strings

  /** One key of a decoded JSON object. */
  datatype Field<T> = Absent | Null | Present(value: T)

  datatype Item = Item(description: Field<string>)

  datatype Receipt = Receipt(merchantName: Field<string>, items: Field<seq<Item>>)

  datatype AspriseResponse = AspriseResponse(receipts: Field<seq<Receipt>>)

  /**
   * The parser's answer. Without a receipt it has the keys `merchant_name`
   * and `items`; with one, the keys `store` and `items`.
   */
  datatype ParsedReceipt =
    | NoReceipt(merchantName: Option<string>, items: map<string, nat>)
    | StoreItems(store: Option<string>, items: map<string, nat>)

  /** The runtime errors the parser can run into. */
  datatype ParseError =
    /** The first receipt's `items` is `null`, which cannot be iterated. */
    | ItemsNotIterable
    /** The item at this position has a `null` description, which has no `strip`. */
    | DescriptionNotString(index: nat)

  /** The store reported when the first receipt has no `merchant_name` key. */
  const UnknownStore: string := "Unknown"

  // ---------------------------------------------------------------- names

  /** `description.strip().title()` */
  function Normalise(description: string): string {
    Title(Strip(description))
  }

  /**
   * A normalised name is empty exactly when the description is all
   * whitespace, and otherwise has no whitespace at either end.
   */
  lemma NormaliseSpec(description: string)
    ensures var name := Normalise(description);
            && |name| <= |description|
            && (name == "" <==> forall i :: 0 <= i < |description| ==> IsSpace(description[i]))
            && (name != "" ==> !IsSpace(name[0]) && !IsSpace(name[|name| - 1]))
  {
    StripSpec(description);
    TitleKeepsSpaces(Strip(description));
  }

  /** A name is already in normal form: normalising it again changes nothing. */
  lemma NormaliseIdempotent(description: string)
    ensures Normalise(Normalise(description)) == Normalise(description)
  {
    var name := Normalise(description);
    NormaliseSpec(description);
    StripTrimmed(name);
    TitleIdempotent(Strip(description));
  }

  /**
   * The name an item is counted under, `""` meaning that it is skipped. A
   * missing description reads as `""`. (A `null` one stops the parse with an
   * error before any name is taken; it is given `""` here only to make the
   * function total.)
   */
  function ItemName(item: Item): string {
    match item.description
    case Present(d) => Normalise(d)
    case _ => ""
  }

  /** The names of all items, in order, skipped ones included as `""`. */
  function ItemNames(items: seq<Item>): (names: seq<string>)
    ensures |names| == |items|
    ensures forall i :: 0 <= i < |items| ==> names[i] == ItemName(items[i])
  {
    seq(|items|, i requires 0 <= i < |items| => ItemName(items[i]))
  }

  // ---------------------------------------------------------------- counting

  /** One step of the count: an empty name is skipped, any other name gains one. */
  function Tally(counts: map<string, nat>, name: string): map<string, nat> {
    if name == "" then counts
    else counts[name := (if name in counts then counts[name] else 0) + 1]
  }

  /** The counts of a sequence of names: one tally step per name, in order. */
  function CountNames(names: seq<string>): map<string, nat>
    decreases |names|
  {
    if names == [] then map[]
    else Tally(CountNames(names[..|names| - 1]), names[|names| - 1])
  }

  /**
   * The counts of `items` when each item is counted under `name(item)`: one
   * tally step per item, in order. This is `CountNames` over the items'
   * names (`ItemCountsAreNameCounts`), kept as a fold of its own over the
   * items so that the parser's loop can be proved without unfolding how a
   * name is computed, which makes that proof far cheaper.
   */
  function CountItemsBy(items: seq<Item>, name: Item -> string): map<string, nat>
    decreases |items|
  {
    if items == [] then map[]
    else Tally(CountItemsBy(items[..|items| - 1], name), name(items[|items| - 1]))
  }

  /** The counts after the parser has seen `items`: the specification of the parser's loop. */
  function ItemCounts(items: seq<Item>): map<string, nat> {
    CountItemsBy(items, ItemName)
  }

  /** Counting items is counting their names. */
  lemma {:induction false} ItemCountsAreNameCounts(items: seq<Item>)
    ensures ItemCounts(items) == CountNames(ItemNames(items))
    decreases |items|
  {
    if items != [] {
      var init := items[..|items| - 1];
      ItemCountsAreNameCounts(init);
      assert ItemNames(items)[..|items| - 1] == ItemNames(init);
      assert ItemCounts(items) == Tally(ItemCounts(init), ItemName(items[|items| - 1]));
    }
  }

  /** The counts after one more item are one tally step on the counts before it. */
  lemma CountItemsByStep(items: seq<Item>, name: Item -> string, i: nat)
    requires i < |items|
    ensures CountItemsBy(items[..i + 1], name) == Tally(CountItemsBy(items[..i], name), name(items[i]))
  {
    assert items[..i + 1][..i] == items[..i];
  }

  /**
   * The counts are exact: a name is a key exactly when it is non-empty and
   * occurs, and its count is the number of its occurrences (so at least one).
   */
  lemma {:induction false} CountNamesExact(names: seq<string>)
    ensures forall k :: k in CountNames(names) <==> k != "" && k in names
    ensures forall k :: k in CountNames(names) ==> CountNames(names)[k] == multiset(names)[k] >= 1
    decreases |names|
  {
    if names != [] {
      var init := names[..|names| - 1];
      CountNamesExact(init);
      assert names == init + [names[|names| - 1]];
    }
  }

  /** The sum of the counts in `m` (a ghost helper: maps have no order to add them in). */
  ghost function SumOfCounts(m: map<string, nat>): nat
    decreases |m|
  {
    if m == map[] then 0
    else
      var k :| k in m;
      assert |(m - {k}).Keys| < |m.Keys| by {
        assert (m - {k}).Keys + {k} == m.Keys;
      }
      m[k] + SumOfCounts(m - {k})
  }

  /** Any key can be taken out first when adding up the counts. */
  lemma {:induction false} SumOfCountsRemove(m: map<string, nat>, k: string)
    requires k in m
    ensures SumOfCounts(m) == m[k] + SumOfCounts(m - {k})
    decreases |m|
  {
    var j :| j in m && SumOfCounts(m) == m[j] + SumOfCounts(m - {j});
    if j != k {
      assert |(m - {j}).Keys| < |m.Keys| by {
        assert (m - {j}).Keys + {j} == m.Keys;
      }
      assert |(m - {k}).Keys| < |m.Keys| by {
        assert (m - {k}).Keys + {k} == m.Keys;
      }
      SumOfCountsRemove(m - {j}, k);
      SumOfCountsRemove(m - {k}, j);
      assert m - {j} - {k} == m - {k} - {j};
    }
  }

  /** A tally step adds one to the total, unless the name is skipped. */
  lemma SumOfCountsTally(m: map<string, nat>, name: string)
    ensures SumOfCounts(Tally(m, name)) == SumOfCounts(m) + (if name == "" then 0 else 1)
  {
    if name != "" {
      var t := Tally(m, name);
      SumOfCountsRemove(t, name);
      if name in m {
        SumOfCountsRemove(m, name);
        assert t - {name} == m - {name};
      } else {
        assert t - {name} == m;
      }
    }
  }

  /** The counts add up to the number of names that are not empty. */
  lemma {:induction false} CountNamesTotal(names: seq<string>)
    ensures SumOfCounts(CountNames(names)) == |names| - multiset(names)[""]
    decreases |names|
  {
    if names != [] {
      var init := names[..|names| - 1];
      CountNamesTotal(init);
      SumOfCountsTally(CountNames(init), names[|names| - 1]);
      assert names == init + [names[|names| - 1]];
    }
  }

  // ---------------------------------------------------------------- the parse

  /** `receipt.get("merchant_name", "Unknown")`: a `null` merchant name is kept as `None`. */
  function StoreName(merchantName: Field<string>): (store: Option<string>)
    ensures merchantName.Absent? ==> store == Some(UnknownStore)
    ensures merchantName.Null? ==> store == None
    ensures merchantName.Present? ==> store == Some(merchantName.value)
  {
    match merchantName
    case Absent => Some(UnknownStore)
    case Null => None
    case Present(name) => Some(name)
  }

  /** The position of the first item whose description is `null`, if any. */
  function FirstNullDescription(items: seq<Item>): (first: Option<nat>)
    ensures first.None? <==> forall j :: 0 <= j < |items| ==> !items[j].description.Null?
    ensures first.Some? ==>
              first.value < |items| && items[first.value].description.Null?
              && forall j :: 0 <= j < first.value ==> !items[j].description.Null?
    decreases |items|
  {
    if items == [] then None
    else if items[0].description.Null? then Some(0)
    else
      match FirstNullDescription(items[1..])
      case None => None
      case Some(j) => Some(j + 1)
  }

  /** The first `null` description is the one with none before it. */
  lemma FirstNullAt(items: seq<Item>, i: nat)
    requires i < |items| && items[i].description.Null?
    requires forall j :: 0 <= j < i ==> !items[j].description.Null?
    ensures FirstNullDescription(items) == Some(i)
  {
    var first := FirstNullDescription(items);
    assert first.Some?;
    assert !(first.value < i);
    assert !(first.value > i);
  }

  /** Whether the answer has no receipt to read: `receipts` missing, `null` or empty. */
  predicate NoReceipts(response: AspriseResponse) {
    !response.receipts.Present? || response.receipts.value == []
  }

  /** What parsing one receipt yields. */
  function ParseReceipt(receipt: Receipt): Result<ParsedReceipt, ParseError> {
    var store := StoreName(receipt.merchantName);
    match receipt.items
    case Absent => Success(StoreItems(store, map[]))
    case Null => Failure(ItemsNotIterable)
    case Present(items) =>
      match FirstNullDescription(items)
      case Some(i) => Failure(DescriptionNotString(i))
      case None => Success(StoreItems(store, ItemCounts(items)))
  }

  /** What the parser yields for a whole answer: the specification of `ParseAspriseResponse`. */
  function Parse(response: AspriseResponse): Result<ParsedReceipt, ParseError> {
    if NoReceipts(response) then Success(NoReceipt(None, map[]))
    else ParseReceipt(response.receipts.value[0])
  }

  /**
   * The loop over one receipt's items: counts each item under its name,
   * skipping empty names, and stops at the first `null` description. The
   * parser passes `ItemName`, the normalised description, as `name`.
   */
  method CountItems(items: seq<Item>, name: Item -> string) returns (r: Result<map<string, nat>, ParseError>)
    ensures FirstNullDescription(items).Some? ==> r == Failure(DescriptionNotString(FirstNullDescription(items).value))
    ensures FirstNullDescription(items).None? ==> r == Success(CountItemsBy(items, name))
  {
    var counts: map<string, nat> := map[];
    for i := 0 to |items|
      invariant counts == CountItemsBy(items[..i], name)
      invariant forall j :: 0 <= j < i ==> !items[j].description.Null?
    {
      if items[i].description.Null? {
        FirstNullAt(items, i);
        return Failure(DescriptionNotString(i));
      }
      CountItemsByStep(items, name, i);
      var key := name(items[i]);
      if key != "" {
        counts := counts[key := (if key in counts then counts[key] else 0) + 1];
      }
    }
    assert items[..|items|] == items;
    r := Success(counts);
  }

  /**
   * Reads the first receipt of the answer: the store name and, item by item,
   * the count of each normalised description.
   */
  method ParseAspriseResponse(response: AspriseResponse) returns (r: Result<ParsedReceipt, ParseError>)
    ensures r == Parse(response)
  {
    if NoReceipts(response) {
      return Success(NoReceipt(None, map[]));
    }
    var receipt := response.receipts.value[0];
    var store := StoreName(receipt.merchantName);
    var items: seq<Item>;
    match receipt.items {
      case Absent => items := [];
      case Null => return Failure(ItemsNotIterable);
      case Present(xs) => items := xs;
    }
    var counted := CountItems(items, ItemName);
    match counted {
      case Failure(e) => r := Failure(e);
      case Success(counts) => r := Success(StoreItems(store, counts));
    }
  }

  // ---------------------------------------------------------------- properties of the parse

  /** The two shapes of the answer: no receipt yields `merchant_name = None` and no items, and only then. */
  lemma ParseShape(response: AspriseResponse)
    ensures Parse(response) == Success(NoReceipt(None, map[])) <==> NoReceipts(response)
    ensures Parse(response).Success? && Parse(response).value.NoReceipt? ==> NoReceipts(response)
  {
  }

  /** Only the first receipt is read: whatever follows it never changes the answer. */
  lemma ParseOnlyFirstReceipt(first: Receipt, rest: seq<Receipt>, others: seq<Receipt>)
    ensures Parse(AspriseResponse(Present([first] + rest))) == Parse(AspriseResponse(Present([first] + others)))
  {
  }

  /**
   * A successful parse of a receipt reports its store, and counts exactly:
   * each key is the non-empty normalised description of some item, and its
   * count is the number of such items; the counts add up to the number of
   * items not skipped; a receipt without `items` yields no counts.
   */
  lemma ParseCounts(response: AspriseResponse)
    requires !NoReceipts(response)
    requires Parse(response).Success?
    ensures var receipt := response.receipts.value[0];
            var items := if receipt.items.Present? then receipt.items.value else [];
            var counts := Parse(response).value.items;
            && Parse(response).value == StoreItems(StoreName(receipt.merchantName), counts)
            && (forall k :: k in counts <==> k != "" && k in ItemNames(items))
            && (forall k :: k in counts ==> counts[k] == multiset(ItemNames(items))[k] >= 1)
            && SumOfCounts(counts) == |items| - multiset(ItemNames(items))[""]
  {
    var receipt := response.receipts.value[0];
    var items := if receipt.items.Present? then receipt.items.value else [];
    assert receipt.items.Absent? ==> ItemCounts(items) == map[];
    ItemCountsAreNameCounts(items);
    CountNamesExact(ItemNames(items));
    CountNamesTotal(ItemNames(items));
  }

  /**
   * The parse of a receipt fails exactly on a `null` item list, or on the
   * first item whose description is `null`.
   */
  lemma ParseFailures(response: AspriseResponse)
    requires !NoReceipts(response)
    ensures var receipt := response.receipts.value[0];
            && (Parse(response) == Failure(ItemsNotIterable) <==> receipt.items.Null?)
            && (forall i: nat :: Parse(response) == Failure(DescriptionNotString(i)) <==>
                  receipt.items.Present? && i < |receipt.items.value|
                  && receipt.items.value[i].description.Null?
                  && forall j :: 0 <= j < i ==> !receipt.items.value[j].description.Null?)
  {
    var receipt := response.receipts.value[0];
    if receipt.items.Present? {
      var items := receipt.items.value;
      forall i: nat | i < |items| && items[i].description.Null? && forall j :: 0 <= j < i ==> !items[j].description.Null?
        ensures Parse(response) == Failure(DescriptionNotString(i))
      {
        FirstNullAt(items, i);
      }
    }
  }
}
