/**
  The block-type manager: a free-text name and a colour, and a save action
  that refuses a name that is empty or only whitespace (the user is alerted
  instead) and otherwise appends the item to the saved list.
 */
module BlockTypes {
  import opened Text
  import opened Items

  /** The form item on mount and after every successful save. */
  const BlankItem := Item("", "red")

  /** `!tempItem.name.trim()`: the name trims to the empty string, which
      happens exactly when the name is empty or only whitespace. */
  predicate IsRejected(item: Item)
    ensures IsRejected(item) <==> IsBlank(item.name)
  {
    TrimEmptyIffBlank(item.name);
    Trim(item.name) == []
  }

  /** The form item on mount is rejected, so saving straight away saves nothing. */
  lemma BlankItemRejected()
    ensures IsRejected(BlankItem)
  {
  }

  /** The component's state: the item being edited and the saved list. */
  class BlockTypeManager {
    var tempItem: Item
    var items: seq<Item>

    /** Every saved item has a name with a non-whitespace character. */
    predicate Valid()
      reads this
    {
      forall i :: 0 <= i < |items| ==> !IsBlank(items[i].name)
    }

    /** On mount the form holds an empty name and "red", and nothing is saved. */
    constructor ()
      ensures tempItem == BlankItem && items == []
      ensures Valid()
    {
      tempItem := BlankItem;
      items := [];
    }

    /** `handleChange`: the changed input's field takes the new value. */
    method HandleChange(field: Field, value: string)
      modifies this
      requires Valid()
      ensures tempItem == WithField(old(tempItem), field, value)
      ensures items == old(items)
      ensures Valid()
    {
      tempItem := WithField(tempItem, field, value);
    }

    /** `handleSave`: a blank name is refused (`rejected`, where the source
        shows an alert) and nothing changes; otherwise the item is appended
        with its name as typed, untrimmed, and the form is reset. */
    method HandleSave() returns (rejected: bool)
      modifies this
      requires Valid()
      ensures rejected <==> IsRejected(old(tempItem))
      ensures rejected ==> tempItem == old(tempItem) && items == old(items)
      ensures !rejected ==> items == old(items) + [old(tempItem)] && tempItem == BlankItem
      ensures Valid()
    {
      if Trim(tempItem.name) == [] {
        rejected := true;
        return;
      }
      rejected := false;
      assert !IsRejected(tempItem);
      items := items + [tempItem];
      tempItem := BlankItem;
    }
  }
}
