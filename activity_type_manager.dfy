/**
  The activity-type manager: a form item chosen from fixed name and colour
  options, a save action that appends it to the list of saved activity
  types, and a delete action that removes one saved entry by its position.
 */
module ActivityTypes {
  import opened Items

  /** The names the form offers. */
  const NameOptions: seq<string> := ["Work", "Play", "Eat", "Sleep"]

  /** The colour values the form offers. */
  const ColorOptions: seq<string> := ["#3D5A5E", "#DB7A2A", "#2CC2DB", "#A0DB2C", "#AF2CDB", "#89778F"]

  /** The form item on mount: "Work" with no colour chosen yet. */
  const InitialItem := Item("Work", "")

  /** The form item after a save. */
  const ResetItem := Item("Work", "red")

  /** `s.filter((_, i) => i !== index)`: every element except the one at
      position `index`, in order. */
  function FilterByIndex<T>(s: seq<T>, index: int): (r: seq<T>)
    ensures |r| == if 0 <= index < |s| then |s| - 1 else |s|
  {
    if s == [] then []
    else FilterByIndex(s[..|s| - 1], index) + (if |s| - 1 == index then [] else [s[|s| - 1]])
  }

  /** Filtering by an index inside the list removes exactly that element;
      any other index (negative, or past the end) leaves the list as it is. */
  lemma {:induction false} FilterByIndexRemoves<T>(s: seq<T>, index: int)
    ensures 0 <= index < |s| ==> FilterByIndex(s, index) == s[..index] + s[index + 1..]
    ensures !(0 <= index < |s|) ==> FilterByIndex(s, index) == s
  {
    if s != [] {
      var init := s[..|s| - 1];
      FilterByIndexRemoves(init, index);
      if |s| - 1 == index {
        assert s[..index] == init;
      } else if 0 <= index < |s| - 1 {
        assert init[..index] == s[..index];
        assert init[index + 1..] == s[index + 1..|s| - 1];
        assert s[index + 1..|s| - 1] + [s[|s| - 1]] == s[index + 1..];
      } else {
        assert init + [s[|s| - 1]] == s;
      }
    }
  }

  /** Deleting the entry just saved gives back the list before the save. */
  lemma DeleteLastUndoesSave<T>(s: seq<T>, x: T)
    ensures FilterByIndex(s + [x], |s|) == s
  {
    FilterByIndexRemoves(s + [x], |s|);
    assert (s + [x])[..|s|] == s;
  }

  /** The reset colour "red" is not among the colour values the form offers,
      unlike the initial item's "" which is the placeholder option. */
  lemma ResetColorNotOffered()
    ensures ResetItem.color !in ColorOptions && InitialItem.color != ResetItem.color
  {
  }

  /** The name the form starts with and returns to after a save is one the
      name drop-down offers, so the drop-down always shows the item's name. */
  lemma FormNamesOffered()
    ensures InitialItem.name in NameOptions && ResetItem.name in NameOptions
  {
  }

  /** The component's state: the item being edited and the saved list. */
  class ActivityTypeManager {
    var tempItem: Item
    var items: seq<Item>

    /** On mount the form holds "Work" with no colour and nothing is saved. */
    constructor ()
      ensures tempItem == InitialItem && items == []
    {
      tempItem := InitialItem;
      items := [];
    }

    /** `handleChange`: the changed input's field takes the new value. */
    method HandleChange(field: Field, value: string)
      modifies this
      ensures tempItem == WithField(old(tempItem), field, value)
      ensures items == old(items)
    {
      tempItem := WithField(tempItem, field, value);
    }

    /** `handleSave`: the edited item is appended as it is, with no check, and
        the form is reset. */
    method HandleSave()
      modifies this
      ensures items == old(items) + [old(tempItem)]
      ensures tempItem == ResetItem
    {
      items := items + [tempItem];
      tempItem := ResetItem;
    }

    /** `handleDelete`: the entry at `index` is removed; the form is untouched. */
    method HandleDelete(index: int)
      modifies this
      ensures items == FilterByIndex(old(items), index)
      ensures tempItem == old(tempItem)
    {
      items := FilterByIndex(items, index);
    }
  }
}
