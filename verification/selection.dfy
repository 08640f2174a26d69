/**
  The list of selected cities (main.ts, lines 138-159): a city is added only
  when no selected city has the same name and country code, and the remove
  button deletes the first entry equal to its city.
 */
module Selection {
  import opened Cities

  /**
    `isCitySelected`: some selected city has the same name and country code.
    A city in the list is selected, and nothing is selected in an empty list.
   */
  predicate IsSelected(selected: seq<City>, city: City)
    ensures city in selected ==> IsSelected(selected, city)
    ensures |selected| == 0 ==> !IsSelected(selected, city)
  {
    exists k :: 0 <= k < |selected| && SameKey(selected[k], city)
  }

  /** No two selected cities share a name and country code. */
  predicate Unique(selected: seq<City>) {
    forall k, l :: 0 <= k < l < |selected| ==> !SameKey(selected[k], selected[l])
  }

  /** `selectCity`: appends the city unless one with its key is already selected. */
  function SelectCity(selected: seq<City>, city: City): (r: seq<City>)
    ensures IsSelected(r, city)
    ensures IsSelected(selected, city) ==> r == selected
    ensures !IsSelected(selected, city) ==> r == selected + [city]
  {
    if IsSelected(selected, city) then selected
    else
      var r := selected + [city];
      assert SameKey(r[|selected|], city);
      r
  }

  /**
    `indexOf`: the position of the first entry equal to `city`, or -1.  The
    source compares object references; the model compares values.
   */
  function IndexOf(selected: seq<City>, city: City): (r: int)
    ensures -1 <= r < |selected|
    ensures r == -1 <==> city !in selected
    ensures r >= 0 ==> selected[r] == city && city !in selected[..r]
    decreases |selected|
  {
    if |selected| == 0 then -1
    else if selected[0] == city then 0
    else
      var i := IndexOf(selected[1..], city);
      if i == -1 then -1
      else
        assert selected[1..][..i] == selected[1..i + 1];
        i + 1
  }

  /** `removeCity`: removes the entry found by `indexOf`, if there is one. */
  function RemoveCity(selected: seq<City>, city: City): (r: seq<City>)
    ensures city !in selected ==> r == selected
    ensures city in selected ==> |r| == |selected| - 1
    ensures city in selected ==> multiset(r) + multiset{city} == multiset(selected)
  {
    var index := IndexOf(selected, city);
    if index > -1 then
      assert selected == selected[..index] + [city] + selected[index + 1..];
      selected[..index] + selected[index + 1..]
    else selected
  }

  /** Selecting keeps the selected keys unique. */
  lemma SelectKeepsUnique(selected: seq<City>, city: City)
    requires Unique(selected)
    ensures Unique(SelectCity(selected, city))
  {
    if !IsSelected(selected, city) {
      var r := selected + [city];
      forall k, l | 0 <= k < l < |r|
        ensures !SameKey(r[k], r[l])
      {
        if l == |selected| {
          assert !SameKey(selected[k], city);
        }
      }
    }
  }

  /** Selecting the same city twice is the same as selecting it once. */
  lemma SelectIdempotent(selected: seq<City>, city: City)
    ensures SelectCity(SelectCity(selected, city), city) == SelectCity(selected, city)
  {
  }

  /**
    Removal deletes exactly the first entry equal to the city and keeps the
    others in order; without such an entry nothing changes.
   */
  lemma RemoveSpec(selected: seq<City>, city: City)
    ensures city !in selected ==> RemoveCity(selected, city) == selected
    ensures city in selected ==>
      exists i :: 0 <= i < |selected| && selected[i] == city && city !in selected[..i]
        && RemoveCity(selected, city) == selected[..i] + selected[i + 1..]
    ensures city in selected ==> multiset(RemoveCity(selected, city)) + multiset{city} == multiset(selected)
  {
    if city in selected {
      var i := IndexOf(selected, city);
      assert selected == selected[..i] + [city] + selected[i + 1..];
    }
  }

  /** Removing a city just selected, when it was not selected before, gives back the previous list. */
  lemma RemoveUndoesSelect(selected: seq<City>, city: City)
    requires !IsSelected(selected, city)
    ensures RemoveCity(SelectCity(selected, city), city) == selected
  {
    var r := selected + [city];
    assert r[..|selected|] == selected;
    assert IndexOf(r, city) == |selected|;
  }

  /** Removing keeps the selected keys unique. */
  lemma RemoveKeepsUnique(selected: seq<City>, city: City)
    requires Unique(selected)
    ensures Unique(RemoveCity(selected, city))
  {
    var i := IndexOf(selected, city);
    if i > -1 {
      var r := RemoveCity(selected, city);
      forall k, l | 0 <= k < l < |r|
        ensures !SameKey(r[k], r[l])
      {
        var k' := if k < i then k else k + 1;
        var l' := if l < i then l else l + 1;
        assert r[k] == selected[k'] && r[l] == selected[l'];
      }
    }
  }
}
