/**
  The record both item managers edit: a name and a colour, and the
  computed-key update `{ ...item, [field]: value }` their change handlers
  apply when one of the form's inputs changes.
 */
module Items {

  /** An item, as saved in a manager's list. */
  datatype Item = Item(name: string, color: string)

  /** The `name` attribute of the form input that fired the change event. */
  datatype Field = Name | Color

  /** The value of one field of an item. */
  function Get(item: Item, field: Field): string {
    match field
    case Name => item.name
    case Color => item.color
  }

  /** `{ ...item, [field]: value }`: the item with one field replaced. */
  function WithField(item: Item, field: Field, value: string): (r: Item)
    ensures Get(r, field) == value
    ensures forall f: Field :: f != field ==> Get(r, f) == Get(item, f)
  {
    match field
    case Name => item.(name := value)
    case Color => item.(color := value)
  }

  /** Setting a field to the value it already holds changes nothing, and a
      second change of the same field overrides the first. */
  lemma WithFieldLaws(item: Item, field: Field, a: string, b: string)
    ensures WithField(item, field, Get(item, field)) == item
    ensures WithField(WithField(item, field, a), field, b) == WithField(item, field, b)
  {
  }
}
