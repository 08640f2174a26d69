/**
  The search box (main.ts, lines 91-103 and 188-216): the query is matched by
  the fuzzy index, at most ten results are shown, and the arrow keys move a
  cursor over them, wrapping at both ends.  The fuzzy matching itself is
  outside the model: the index is a function from query to ranked results,
  absent until the catalogue has loaded.
 */
module Search {
  import opened Base
  import opened JsMath
  import opened JsText

  /** The number of results `searchCities` keeps. */
  const ResultLimit: nat := 10

  /** `searchCities`: nothing before the index exists or for a blank query, else the first ten matches. */
  function SearchCities<T>(index: Option<string -> seq<T>>, query: string): (r: seq<T>)
    ensures |r| <= ResultLimit
    ensures index.None? || IsBlank(query) ==> r == []
    ensures index.Some? && !IsBlank(query) ==>
              r == index.value(query)[..if |index.value(query)| < ResultLimit then |index.value(query)| else ResultLimit]
  {
    TrimEmptyIffBlank(query);
    if index.None? || |Trim(query)| == 0 then []
    else
      var found := index.value(query);
      if |found| <= ResultLimit then found else found[..ResultLimit]
  }

  /** ArrowDown: one result further, wrapping from the last to the first. */
  function NextIndex(index: int, itemCount: int): (r: int)
    requires itemCount != 0
    ensures 0 <= index < itemCount ==> 0 <= r < itemCount
    ensures 0 <= index < itemCount ==> r == if index == itemCount - 1 then 0 else index + 1
  {
    if 0 <= index < itemCount then
      WrapOnce(index + 1, itemCount);
      Rem(index + 1, itemCount)
    else
      Rem(index + 1, itemCount)
  }

  /** ArrowUp: one result back, wrapping from the first to the last. */
  function PrevIndex(index: int, itemCount: int): (r: int)
    requires itemCount != 0
    ensures 0 <= index < itemCount ==> 0 <= r < itemCount
    ensures 0 <= index < itemCount ==> r == if index == 0 then itemCount - 1 else index - 1
  {
    if 0 <= index < itemCount then
      WrapOnce(index - 1 + itemCount, itemCount);
      Rem(index - 1 + itemCount, itemCount)
    else
      Rem(index - 1 + itemCount, itemCount)
  }

  /** A value in [0, 2n) taken modulo n: itself below n, less n from n on. */
  lemma WrapOnce(a: int, n: int)
    requires 0 <= a < 2 * n
    ensures Rem(a, n) == if a < n then a else a - n
  {
    if a < n {
      assert a % n == a;
    } else {
      assert a % n == a - n;
    }
  }

  /** ArrowUp undoes ArrowDown and ArrowDown undoes ArrowUp. */
  lemma ArrowsInverse(index: int, itemCount: int)
    requires 0 <= index < itemCount
    ensures PrevIndex(NextIndex(index, itemCount), itemCount) == index
    ensures NextIndex(PrevIndex(index, itemCount), itemCount) == index
  {
  }

  datatype Key = ArrowDown | ArrowUp | Enter | OtherKey

  /** The cursor after a key press, and the result Enter chose, if any. */
  datatype KeyResult = KeyResult(index: int, chosen: Option<int>)

  /**
    The keydown handler: with no results shown nothing happens; the arrows
    move the cursor; Enter chooses the result under it.
   */
  function OnKey(index: int, itemCount: nat, key: Key): (r: KeyResult)
    ensures itemCount == 0 ==> r == KeyResult(index, None)
    ensures r.chosen.Some? <==> itemCount > 0 && key == Enter
    ensures r.chosen.Some? ==> r.chosen.value == index && r.index == index
    ensures 0 <= index < itemCount ==> 0 <= r.index < itemCount
  {
    if itemCount == 0 then KeyResult(index, None)
    else
      match key
      case ArrowDown => KeyResult(NextIndex(index, itemCount), None)
      case ArrowUp => KeyResult(PrevIndex(index, itemCount), None)
      case Enter => KeyResult(index, Some(index))
      case OtherKey => KeyResult(index, None)
  }

  /** Pressing ArrowDown then ArrowUp, or ArrowUp then ArrowDown, puts the cursor back. */
  lemma DownThenUp(index: int, itemCount: nat)
    requires 0 <= index < itemCount
    ensures OnKey(OnKey(index, itemCount, ArrowDown).index, itemCount, ArrowUp).index == index
    ensures OnKey(OnKey(index, itemCount, ArrowUp).index, itemCount, ArrowDown).index == index
  {
    ArrowsInverse(index, itemCount);
  }
}
